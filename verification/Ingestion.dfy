/** The ingestion agent: per-upload checks, duplicate detection, and the status
    it reports for any reply of the language model. */
module Ingestion {
  import opened Prelude
  import opened Confidence

  /** Seconds on the UTC clock. */
  type Instant = int

  const DAY: int := 86400
  const STALE_DAYS: int := 7
  const OUT_OF_RANGE_LIMIT: real := 1000000000.0

  datatype UploadStatus = Uploaded | Processing | UploadCompleted | UploadFailed

  datatype Upload = Upload(
    filename: string, typeUnknown: bool, hash: string, sizeBytes: Option<int>,
    status: UploadStatus, createdAt: Option<Instant>)

  datatype Validation = Pending | Valid | Flagged | SourceRejected

  /** A stored or received JSON value, as far as the agent tells them apart. */
  datatype Json = Number(value: real) | Boolean(b: bool) | OtherJson

  datatype Source = Source(validation: Validation, processed: seq<(string, Json)>, createdAt: Option<Instant>)

  /** Uploads and sources are named by their position. */
  datatype Anomaly =
    | UnknownType(upload: nat)
    | BadHash(upload: nat)
    | BadSize(upload: nat)
    | Duplicate(upload: nat, original: string)
    | SourceFlagged(source: nat)
    | OutOfRange(source: nat, key: string)
    | StaleUpload(upload: nat)
    | StaleSource(source: nat)

  // ---- per-upload validation ----

  function UploadAnomalies(u: Upload, i: nat): seq<Anomaly> {
    (if u.typeUnknown then [UnknownType(i)] else [])
    + (if |u.hash| != 64 then [BadHash(i)] else [])
    + (if u.sizeBytes.Some? && u.sizeBytes.value <= 0 then [BadSize(i)] else [])
  }

  method ValidateUpload(u: Upload, i: nat) returns (anomalies: seq<Anomaly>)
    ensures anomalies == UploadAnomalies(u, i)
  {
    anomalies := [];
    if u.typeUnknown {
      anomalies := anomalies + [UnknownType(i)];
    }
    if u.hash == "" || |u.hash| != 64 {
      anomalies := anomalies + [BadHash(i)];
    }
    if u.sizeBytes.Some? && u.sizeBytes.value <= 0 {
      anomalies := anomalies + [BadSize(i)];
    }
  }

  // ---- duplicate uploads ----

  predicate Occurs(uploads: seq<Upload>, upTo: nat, hash: string)
    requires upTo <= |uploads|
  {
    exists j :: 0 <= j < upTo && uploads[j].hash == hash
  }

  lemma OccursSnoc(uploads: seq<Upload>, upTo: nat, hash: string)
    requires upTo < |uploads|
    ensures Occurs(uploads, upTo + 1, hash) <==> Occurs(uploads, upTo, hash) || uploads[upTo].hash == hash
  {
    if uploads[upTo].hash == hash {
      assert Occurs(uploads, upTo + 1, hash);
    }
  }

  /** Upload `i` has the same non-empty hash as an earlier one. */
  predicate Repeats(uploads: seq<Upload>, i: nat)
    requires i < |uploads|
  {
    uploads[i].hash != "" && Occurs(uploads, i, uploads[i].hash)
  }

  /** The first upload with a hash that occurs. */
  function FirstWith(uploads: seq<Upload>, upTo: nat, hash: string): (i: nat)
    requires upTo <= |uploads| && Occurs(uploads, upTo, hash)
    ensures i < upTo && uploads[i].hash == hash && !Occurs(uploads, i, hash)
  {
    OccursSnoc(uploads, upTo - 1, hash);
    if Occurs(uploads, upTo - 1, hash) then FirstWith(uploads, upTo - 1, hash) else upTo - 1
  }

  /** One anomaly for each repeating upload, in order, naming the first of its kind. */
  function Duplicates(uploads: seq<Upload>, upTo: nat): seq<Anomaly>
    requires upTo <= |uploads|
  {
    if upTo == 0 then []
    else
      Duplicates(uploads, upTo - 1)
      + (if Repeats(uploads, upTo - 1)
         then [Duplicate(upTo - 1, uploads[FirstWith(uploads, upTo - 1, uploads[upTo - 1].hash)].filename)]
         else [])
  }

  /** The dictionary of the loop: each non-empty hash so far, with the name of the
      first upload that had it. */
  ghost predicate SeenUpTo(seen: map<string, string>, uploads: seq<Upload>, upTo: nat)
    requires upTo <= |uploads|
  {
    && (forall h :: h in seen <==> h != "" && Occurs(uploads, upTo, h))
    && (forall h :: h in seen ==> seen[h] == uploads[FirstWith(uploads, upTo, h)].filename)
  }

  lemma SeenNext(seen: map<string, string>, uploads: seq<Upload>, i: nat)
    requires i < |uploads| && SeenUpTo(seen, uploads, i)
    ensures var h := uploads[i].hash;
      SeenUpTo(if h == "" || h in seen then seen else seen[h := uploads[i].filename], uploads, i + 1)
  {
    forall h
      ensures Occurs(uploads, i + 1, h) <==> Occurs(uploads, i, h) || uploads[i].hash == h
    {
      OccursSnoc(uploads, i, h);
    }
  }

  method DetectDuplicates(uploads: seq<Upload>) returns (anomalies: seq<Anomaly>)
    ensures anomalies == Duplicates(uploads, |uploads|)
  {
    var seen: map<string, string> := map[];
    anomalies := [];
    var i := 0;
    while i < |uploads|
      invariant 0 <= i <= |uploads|
      invariant SeenUpTo(seen, uploads, i)
      invariant anomalies == Duplicates(uploads, i)
    {
      SeenNext(seen, uploads, i);
      var h := uploads[i].hash;
      if h == "" {
      } else if h in seen {
        anomalies := anomalies + [Duplicate(i, seen[h])];
      } else {
        seen := seen[h := uploads[i].filename];
      }
      i := i + 1;
    }
  }

  lemma {:induction false} DuplicatesIff(uploads: seq<Upload>, upTo: nat, i: nat)
    requires upTo <= |uploads|
    ensures (exists a :: a in Duplicates(uploads, upTo) && a.Duplicate? && a.upload == i) <==> i < upTo && Repeats(uploads, i)
    ensures forall a :: a in Duplicates(uploads, upTo) ==> a.Duplicate? && a.upload < upTo
  {
    if upTo > 0 {
      DuplicatesIff(uploads, upTo - 1, i);
      if Repeats(uploads, upTo - 1) {
        var a := Duplicate(upTo - 1, uploads[FirstWith(uploads, upTo - 1, uploads[upTo - 1].hash)].filename);
        assert a in Duplicates(uploads, upTo);
        assert forall b :: b in Duplicates(uploads, upTo) ==> b == a || b in Duplicates(uploads, upTo - 1);
      }
      assert forall b :: b in Duplicates(uploads, upTo - 1) ==> b in Duplicates(uploads, upTo);
    }
  }

  function Hashed(uploads: seq<Upload>, upTo: nat): nat
    requires upTo <= |uploads|
  {
    if upTo == 0 then 0 else Hashed(uploads, upTo - 1) + (if uploads[upTo - 1].hash != "" then 1 else 0)
  }

  function Hashes(uploads: seq<Upload>, upTo: nat): set<string>
    requires upTo <= |uploads|
  {
    set i | 0 <= i < upTo && uploads[i].hash != "" :: uploads[i].hash
  }

  /** An upload is flagged exactly when it is not the first with its hash: flagged
      uploads and distinct hashes together are the uploads that have a hash. */
  lemma {:induction false} DuplicatesConserved(uploads: seq<Upload>, upTo: nat)
    requires upTo <= |uploads|
    ensures |Duplicates(uploads, upTo)| + |Hashes(uploads, upTo)| == Hashed(uploads, upTo)
  {
    if upTo > 0 {
      DuplicatesConserved(uploads, upTo - 1);
      var before, h := Hashes(uploads, upTo - 1), uploads[upTo - 1].hash;
      if h == "" {
        assert Hashes(uploads, upTo) == before;
      } else {
        assert Hashes(uploads, upTo) == before + {h};
        assert Repeats(uploads, upTo - 1) <==> h in before;
      }
    }
  }

  // ---- sources and staleness ----

  predicate Implausible(v: Json) {
    v.Number? && (v.value > OUT_OF_RANGE_LIMIT || v.value < 0.0)
  }

  function RangeAnomalies(processed: seq<(string, Json)>, i: nat): seq<Anomaly> {
    if processed == [] then []
    else
      RangeAnomalies(processed[..|processed| - 1], i)
      + (if Implausible(processed[|processed| - 1].1) then [OutOfRange(i, processed[|processed| - 1].0)] else [])
  }

  method DetectOutOfRange(processed: seq<(string, Json)>, i: nat) returns (anomalies: seq<Anomaly>)
    ensures anomalies == RangeAnomalies(processed, i)
  {
    anomalies := [];
    var k := 0;
    while k < |processed|
      invariant 0 <= k <= |processed|
      invariant anomalies == RangeAnomalies(processed[..k], i)
    {
      var (key, value) := processed[k];
      if value.Number? {
        var abs := if value.value < 0.0 then -value.value else value.value;
        if abs > OUT_OF_RANGE_LIMIT || value.value < 0.0 {
          anomalies := anomalies + [OutOfRange(i, key)];
        }
      }
      assert processed[..k + 1][..k] == processed[..k];
      k := k + 1;
    }
    assert processed[..|processed|] == processed;
  }

  /** Whole days since an instant, rounded down. */
  function AgeDays(created: Instant, now: Instant): int { (now - created) / DAY }

  predicate Waiting(s: UploadStatus) { s == Uploaded || s == Processing }

  predicate UploadStale(u: Upload, now: Instant) {
    Waiting(u.status) && u.createdAt.Some? && AgeDays(u.createdAt.value, now) >= STALE_DAYS
  }

  predicate SourceStale(s: Source, now: Instant) {
    s.validation == Pending && s.createdAt.Some? && AgeDays(s.createdAt.value, now) >= STALE_DAYS
  }

  function AllUploadAnomalies(uploads: seq<Upload>, upTo: nat): seq<Anomaly>
    requires upTo <= |uploads|
  {
    if upTo == 0 then [] else AllUploadAnomalies(uploads, upTo - 1) + UploadAnomalies(uploads[upTo - 1], upTo - 1)
  }

  function AllSourceAnomalies(sources: seq<Source>, upTo: nat): seq<Anomaly>
    requires upTo <= |sources|
  {
    if upTo == 0 then []
    else
      var s := sources[upTo - 1];
      AllSourceAnomalies(sources, upTo - 1)
      + (if s.validation == Flagged || s.validation == SourceRejected then [SourceFlagged(upTo - 1)] else [])
      + RangeAnomalies(s.processed, upTo - 1)
  }

  function StaleUploads(uploads: seq<Upload>, upTo: nat, now: Instant): seq<Anomaly>
    requires upTo <= |uploads|
  {
    if upTo == 0 then []
    else StaleUploads(uploads, upTo - 1, now) + (if UploadStale(uploads[upTo - 1], now) then [StaleUpload(upTo - 1)] else [])
  }

  function StaleSources(sources: seq<Source>, upTo: nat, now: Instant): seq<Anomaly>
    requires upTo <= |sources|
  {
    if upTo == 0 then []
    else StaleSources(sources, upTo - 1, now) + (if SourceStale(sources[upTo - 1], now) then [StaleSource(upTo - 1)] else [])
  }

  /** What the per-upload checks find in all uploads. */
  function InvalidUploads(uploads: seq<Upload>): seq<Anomaly> { AllUploadAnomalies(uploads, |uploads|) }

  function Anomalies(uploads: seq<Upload>, sources: seq<Source>, now: Instant): seq<Anomaly> {
    InvalidUploads(uploads)
    + Duplicates(uploads, |uploads|)
    + AllSourceAnomalies(sources, |sources|)
    + StaleUploads(uploads, |uploads|, now)
    + StaleSources(sources, |sources|, now)
  }

  // ---- the assessment ----

  /** The model's review: unavailable, or a document whose severity is any JSON
      value. */
  datatype Reply = Fallback | Review(severity: Json)

  datatype Status = Completed | QueuedForReview

  datatype Assessment = Assessment(
    status: Status, confidence: real, processed: nat, queued: nat, failed: nat, anomalies: seq<Anomaly>)

  /** What the passes accumulate. */
  datatype Tallies = Tallies(processed: nat, queued: nat, failed: nat, anomalies: seq<Anomaly>)

  /** The uploads in one status. */
  function Tally(uploads: seq<Upload>, upTo: nat, status: UploadStatus): nat
    requires upTo <= |uploads|
  {
    if upTo == 0 then 0 else Tally(uploads, upTo - 1, status) + (if uploads[upTo - 1].status == status then 1 else 0)
  }

  function Processed(uploads: seq<Upload>): nat { Tally(uploads, |uploads|, UploadCompleted) }

  function Queued(uploads: seq<Upload>): nat { Tally(uploads, |uploads|, Uploaded) + Tally(uploads, |uploads|, Processing) }

  function Failed(uploads: seq<Upload>): nat { Tally(uploads, |uploads|, UploadFailed) }

  /** The share of uploads that reached an outcome; sources alone count as complete. */
  function Completeness(uploads: seq<Upload>, sources: seq<Source>): real {
    if |uploads| > 0 then (Processed(uploads) + Failed(uploads)) as real / |uploads| as real
    else if |sources| > 0 then 1.0
    else 0.0
  }

  function Heuristic(completeness: real, anomalies: nat): real {
    Max(0.0, completeness - Min(0.4, 0.1 * anomalies as real))
  }

  function Severity(reply: Reply): Option<real> {
    if reply.Review? && reply.severity.Number? then Some(Unit(reply.severity.value)) else None
  }

  function ConfidenceFor(heuristic: real, reply: Reply): real {
    var severity := Severity(reply);
    Blend(heuristic, if severity.Some? then Some(1.0 - severity.value) else None)
  }

  function Assess(uploads: seq<Upload>, sources: seq<Source>, now: Instant, reply: Reply): Assessment {
    if uploads == [] && sources == [] then Assessment(Completed, 0.6, 0, 0, 0, [])
    else
      var anomalies := Anomalies(uploads, sources, now);
      var confidence := ConfidenceFor(Heuristic(Completeness(uploads, sources), |anomalies|), reply);
      Assessment(if Failed(uploads) > 0 || confidence < 0.85 then QueuedForReview else Completed,
                 confidence, Processed(uploads), Queued(uploads), Failed(uploads), anomalies)
  }

  /** The agent's run: the score is computed on what the passes collect. */
  method Run(uploads: seq<Upload>, sources: seq<Source>, now: Instant, reply: Reply) returns (r: Assessment)
    ensures r == Assess(uploads, sources, now, reply)
  {
    if uploads == [] && sources == [] {
      return Assessment(Completed, 0.6, 0, 0, 0, []);
    }
    var tallies := Collect(uploads, sources, now);
    var processed, queued, failed, anomalies := tallies.processed, tallies.queued, tallies.failed, tallies.anomalies;
    var completeness;
    if |uploads| > 0 {
      completeness := (processed + failed) as real / |uploads| as real;
    } else if sources != [] {
      completeness := 1.0;
    } else {
      completeness := 0.0;
    }
    assert completeness == Completeness(uploads, sources);
    var penalty := Min(0.4, 0.1 * |anomalies| as real);
    var heuristic := Max(0.0, completeness - penalty);
    assert heuristic == Heuristic(Completeness(uploads, sources), |anomalies|);
    var severity := Severity(reply);
    var confidence;
    if severity.Some? {
      confidence := Blend(heuristic, Some(1.0 - severity.value));
    } else {
      confidence := Blend(heuristic, None);
    }
    var status := if failed > 0 || confidence < 0.85 then QueuedForReview else Completed;
    return Assessment(status, confidence, processed, queued, failed, anomalies);
  }

  /** The passes over uploads and sources, in the agent's order. */
  method Collect(uploads: seq<Upload>, sources: seq<Source>, now: Instant) returns (r: Tallies)
    ensures r == Tallies(Processed(uploads), Queued(uploads), Failed(uploads), Anomalies(uploads, sources, now))
  {
    r := CheckUploads(uploads);
    var anomalies := r.anomalies;
    var duplicates := DetectDuplicates(uploads);
    anomalies := anomalies + duplicates;
    var sourceAnomalies := CheckSources(sources);
    anomalies := anomalies + sourceAnomalies;
    var stale := FindStale(uploads, sources, now);
    anomalies := anomalies + stale;
    r := r.(anomalies := anomalies);
  }

  method CheckUploads(uploads: seq<Upload>) returns (r: Tallies)
    ensures r == Tallies(Processed(uploads), Queued(uploads), Failed(uploads), InvalidUploads(uploads))
  {
    var processed, queued, failed := 0, 0, 0;
    var anomalies: seq<Anomaly> := [];
    var i := 0;
    while i < |uploads|
      invariant 0 <= i <= |uploads|
      invariant processed == Tally(uploads, i, UploadCompleted)
      invariant queued == Tally(uploads, i, Uploaded) + Tally(uploads, i, Processing)
      invariant failed == Tally(uploads, i, UploadFailed)
      invariant anomalies == AllUploadAnomalies(uploads, i)
    {
      match uploads[i].status {
        case UploadCompleted => processed := processed + 1;
        case Uploaded => queued := queued + 1;
        case Processing => queued := queued + 1;
        case UploadFailed => failed := failed + 1;
      }
      var found := ValidateUpload(uploads[i], i);
      anomalies := anomalies + found;
      i := i + 1;
    }
    return Tallies(processed, queued, failed, anomalies);
  }

  method CheckSources(sources: seq<Source>) returns (anomalies: seq<Anomaly>)
    ensures anomalies == AllSourceAnomalies(sources, |sources|)
  {
    anomalies := [];
    var i := 0;
    while i < |sources|
      invariant 0 <= i <= |sources|
      invariant anomalies == AllSourceAnomalies(sources, i)
    {
      var s := sources[i];
      if s.validation == Flagged || s.validation == SourceRejected {
        anomalies := anomalies + [SourceFlagged(i)];
      }
      var found := DetectOutOfRange(s.processed, i);
      anomalies := anomalies + found;
      i := i + 1;
    }
  }

  method FindStale(uploads: seq<Upload>, sources: seq<Source>, now: Instant) returns (anomalies: seq<Anomaly>)
    ensures anomalies == StaleUploads(uploads, |uploads|, now) + StaleSources(sources, |sources|, now)
  {
    anomalies := [];
    var i := 0;
    while i < |uploads|
      invariant 0 <= i <= |uploads|
      invariant anomalies == StaleUploads(uploads, i, now)
    {
      if UploadStale(uploads[i], now) {
        anomalies := anomalies + [StaleUpload(i)];
      }
      i := i + 1;
    }
    i := 0;
    while i < |sources|
      invariant 0 <= i <= |sources|
      invariant anomalies == StaleUploads(uploads, |uploads|, now) + StaleSources(sources, i, now)
    {
      if SourceStale(sources[i], now) {
        anomalies := anomalies + [StaleSource(i)];
      }
      i := i + 1;
    }
  }

  // ---- what the anomaly list means ----

  /** The condition that each kind of anomaly reports. */
  ghost predicate Warranted(a: Anomaly, uploads: seq<Upload>, sources: seq<Source>, now: Instant) {
    match a
    case UnknownType(i) => i < |uploads| && uploads[i].typeUnknown
    case BadHash(i) => i < |uploads| && |uploads[i].hash| != 64
    case BadSize(i) => i < |uploads| && uploads[i].sizeBytes.Some? && uploads[i].sizeBytes.value <= 0
    case Duplicate(i, original) =>
      i < |uploads| && exists j :: 0 <= j < i && uploads[j].hash == uploads[i].hash != "" && uploads[j].filename == original
                                   && forall m :: 0 <= m < j ==> uploads[m].hash != uploads[i].hash
    case SourceFlagged(k) => k < |sources| && (sources[k].validation == Flagged || sources[k].validation == SourceRejected)
    case OutOfRange(k, key) =>
      k < |sources| && exists v: real :: (key, Number(v)) in sources[k].processed && (v > 1_000_000_000.0 || v < 0.0)
    case StaleUpload(i) =>
      i < |uploads| && (uploads[i].status == Uploaded || uploads[i].status == Processing)
      && uploads[i].createdAt.Some? && now - uploads[i].createdAt.value >= 604_800
    case StaleSource(k) =>
      k < |sources| && sources[k].validation == Pending && sources[k].createdAt.Some? && now - sources[k].createdAt.value >= 604_800
  }

  lemma AgeIff(created: Instant, now: Instant)
    ensures AgeDays(created, now) >= STALE_DAYS <==> now - created >= 7 * DAY
  {
  }

  lemma {:induction false} UploadAnomaliesIff(uploads: seq<Upload>, upTo: nat, a: Anomaly)
    requires upTo <= |uploads|
    ensures a in AllUploadAnomalies(uploads, upTo) <==>
      (a.UnknownType? || a.BadHash? || a.BadSize?) && a.upload < upTo && Warranted(a, uploads, [], 0)
  {
    if upTo > 0 {
      UploadAnomaliesIff(uploads, upTo - 1, a);
      OneUploadIff(uploads, upTo - 1, a);
    }
  }

  lemma OneUploadIff(uploads: seq<Upload>, i: nat, a: Anomaly)
    requires i < |uploads|
    ensures a in UploadAnomalies(uploads[i], i) <==>
      (a.UnknownType? || a.BadHash? || a.BadSize?) && a.upload == i && Warranted(a, uploads, [], 0)
  {
  }

  /** The first upload with a hash is the only one that none precedes. */
  lemma FirstIsOnly(uploads: seq<Upload>, upTo: nat, hash: string, j: nat)
    requires upTo <= |uploads| && j < upTo && uploads[j].hash == hash && !Occurs(uploads, j, hash)
    ensures Occurs(uploads, upTo, hash) && FirstWith(uploads, upTo, hash) == j
  {
    assert Occurs(uploads, upTo, hash);
    var i := FirstWith(uploads, upTo, hash);
    assert !Occurs(uploads, i, hash) && !Occurs(uploads, j, hash);
  }

  lemma {:induction false} DuplicateAnomaliesIff(uploads: seq<Upload>, upTo: nat, a: Anomaly)
    requires upTo <= |uploads|
    ensures a in Duplicates(uploads, upTo) <==> a.Duplicate? && a.upload < upTo && Warranted(a, uploads, [], 0)
  {
    if upTo > 0 {
      DuplicateAnomaliesIff(uploads, upTo - 1, a);
      if a.Duplicate? && a.upload == upTo - 1 {
        var i, h := upTo - 1, uploads[upTo - 1].hash;
        if Repeats(uploads, i) {
          var j := FirstWith(uploads, i, h);
          assert uploads[j].hash == h;
        }
        if Warranted(a, uploads, [], 0) {
          var j :| 0 <= j < i && uploads[j].hash == h != "" && uploads[j].filename == a.original && !Occurs(uploads, j, h);
          FirstIsOnly(uploads, i, h, j);
        }
      }
    }
  }

  lemma {:induction false} RangeAnomaliesIff(processed: seq<(string, Json)>, k: nat, a: Anomaly)
    ensures a in RangeAnomalies(processed, k) <==>
      a.OutOfRange? && a.source == k && exists v: real :: (a.key, Number(v)) in processed && (v > 1_000_000_000.0 || v < 0.0)
  {
    if processed != [] {
      var rest, last := processed[..|processed| - 1], processed[|processed| - 1];
      RangeAnomaliesIff(rest, k, a);
      assert forall p :: p in processed <==> p in rest || p == last;
      assert last == (last.0, last.1);
    }
  }

  lemma {:induction false} SourceAnomaliesIff(sources: seq<Source>, upTo: nat, a: Anomaly)
    requires upTo <= |sources|
    ensures a in AllSourceAnomalies(sources, upTo) <==>
      (a.SourceFlagged? || a.OutOfRange?) && a.source < upTo && Warranted(a, [], sources, 0)
  {
    if upTo > 0 {
      SourceAnomaliesIff(sources, upTo - 1, a);
      RangeAnomaliesIff(sources[upTo - 1].processed, upTo - 1, a);
    }
  }

  lemma {:induction false} StaleUploadsIff(uploads: seq<Upload>, upTo: nat, now: Instant, a: Anomaly)
    requires upTo <= |uploads|
    ensures a in StaleUploads(uploads, upTo, now) <==> a.StaleUpload? && a.upload < upTo && Warranted(a, uploads, [], now)
  {
    if upTo > 0 {
      StaleUploadsIff(uploads, upTo - 1, now, a);
      if uploads[upTo - 1].createdAt.Some? {
        AgeIff(uploads[upTo - 1].createdAt.value, now);
      }
    }
  }

  lemma {:induction false} StaleSourcesIff(sources: seq<Source>, upTo: nat, now: Instant, a: Anomaly)
    requires upTo <= |sources|
    ensures a in StaleSources(sources, upTo, now) <==> a.StaleSource? && a.source < upTo && Warranted(a, [], sources, now)
  {
    if upTo > 0 {
      StaleSourcesIff(sources, upTo - 1, now, a);
      if sources[upTo - 1].createdAt.Some? {
        AgeIff(sources[upTo - 1].createdAt.value, now);
      }
    }
  }

  /** The list holds exactly the anomalies that the uploads and sources warrant. */
  lemma AnomaliesIff(uploads: seq<Upload>, sources: seq<Source>, now: Instant, a: Anomaly)
    ensures a in Anomalies(uploads, sources, now) <==> Warranted(a, uploads, sources, now)
  {
    UploadAnomaliesIff(uploads, |uploads|, a);
    DuplicateAnomaliesIff(uploads, |uploads|, a);
    SourceAnomaliesIff(sources, |sources|, a);
    StaleUploadsIff(uploads, |uploads|, now, a);
    StaleSourcesIff(sources, |sources|, now, a);
  }

  // ---- what a completed status means ----

  lemma {:induction false} TalliesSum(uploads: seq<Upload>, upTo: nat)
    requires upTo <= |uploads|
    ensures Tally(uploads, upTo, UploadCompleted) + Tally(uploads, upTo, Uploaded) + Tally(uploads, upTo, Processing)
            + Tally(uploads, upTo, UploadFailed) == upTo
  {
    if upTo > 0 {
      TalliesSum(uploads, upTo - 1);
    }
  }

  /** Every upload is counted in exactly one of the three totals. */
  lemma UploadsConserved(uploads: seq<Upload>)
    ensures Processed(uploads) + Queued(uploads) + Failed(uploads) == |uploads|
  {
    TalliesSum(uploads, |uploads|);
  }

  /** The confidence that a reply can reach, and that no reply reaches, against
      the agent's threshold. */
  lemma ConfidenceThreshold(heuristic: real, reply: Reply)
    requires heuristic <= 1.0
    ensures ConfidenceFor(heuristic, reply) >= 0.85 ==> heuristic >= 0.625
    ensures Severity(reply).None? ==> (ConfidenceFor(heuristic, reply) >= 0.85 <==> heuristic >= 0.85)
    ensures ConfidenceFor(heuristic, Review(Number(0.0))) >= 0.85 <==> heuristic >= 0.625
  {
  }

  lemma HeuristicThreshold(completeness: real, anomalies: nat, threshold: real)
    requires 0.6 < threshold && completeness <= 1.0
    ensures Heuristic(completeness, anomalies) >= threshold ==>
      anomalies <= 3 && completeness >= threshold + 0.1 * anomalies as real
    ensures Heuristic(completeness, anomalies) <= 1.0
  {
    if anomalies >= 4 {
      assert 0.1 * anomalies as real >= 0.4;
    }
  }

  lemma CompletenessRange(uploads: seq<Upload>, sources: seq<Source>)
    ensures Completeness(uploads, sources) <= 1.0
  {
    UploadsConserved(uploads);
    if |uploads| > 0 {
      ShareCompared((Processed(uploads) + Failed(uploads)) as real, |uploads| as real, 1.0);
    }
  }

  /** Main result, for every reply of the model: a completed assessment has no
      failed upload, at most three anomalies of all kinds, and enough processed
      uploads to outweigh the anomalies; with no usable reply the bar is higher. */
  lemma CompletedIsSound(uploads: seq<Upload>, sources: seq<Source>, now: Instant, reply: Reply)
    requires uploads != [] || sources != []
    requires Assess(uploads, sources, now, reply).status == Completed
    ensures Failed(uploads) == 0 && |Anomalies(uploads, sources, now)| <= 3
    ensures uploads != [] ==>
      Processed(uploads) as real / |uploads| as real
      >= (if Severity(reply).None? then 0.85 else 0.625) + 0.1 * |Anomalies(uploads, sources, now)| as real
  {
    var n := |Anomalies(uploads, sources, now)|;
    var completeness := Completeness(uploads, sources);
    CompletenessRange(uploads, sources);
    HeuristicThreshold(completeness, n, 0.625);
    HeuristicThreshold(completeness, n, 0.85);
    ConfidenceThreshold(Heuristic(completeness, n), reply);
  }

  /** Exactly when some reply completes the assessment, and when it completes
      without any. */
  lemma CompletableIff(uploads: seq<Upload>, sources: seq<Source>, now: Instant)
    requires uploads != [] || sources != []
    ensures var h := Heuristic(Completeness(uploads, sources), |Anomalies(uploads, sources, now)|);
      && ((exists reply :: Assess(uploads, sources, now, reply).status == Completed) <==> Failed(uploads) == 0 && h >= 0.625)
      && (Assess(uploads, sources, now, Fallback).status == Completed <==> Failed(uploads) == 0 && h >= 0.85)
  {
    var h := Heuristic(Completeness(uploads, sources), |Anomalies(uploads, sources, now)|);
    CompletenessRange(uploads, sources);
    HeuristicThreshold(Completeness(uploads, sources), |Anomalies(uploads, sources, now)|, 0.85);
    ConfidenceThreshold(h, Fallback);
    if Failed(uploads) == 0 && h >= 0.625 {
      assert Assess(uploads, sources, now, Review(Number(0.0))).status == Completed;
    }
    forall reply | Assess(uploads, sources, now, reply).status == Completed
      ensures Failed(uploads) == 0 && h >= 0.625
    {
      ConfidenceThreshold(h, reply);
    }
  }

  /** Across the agent's parts: a completed assessment has at most three uploads
      beyond its distinct contents. */
  lemma CompletedHasFewDuplicates(uploads: seq<Upload>, sources: seq<Source>, now: Instant, reply: Reply)
    requires Assess(uploads, sources, now, reply).status == Completed
    ensures Hashed(uploads, |uploads|) <= |Hashes(uploads, |uploads|)| + 3
  {
    DuplicatesConserved(uploads, |uploads|);
    if uploads != [] || sources != [] {
      CompletedIsSound(uploads, sources, now, reply);
    }
  }

  // ---- the run, in the words of its inputs ----

  /** The uploads in one status. */
  ghost function InStatus(uploads: seq<Upload>, upTo: nat, status: UploadStatus): set<nat>
    requires upTo <= |uploads|
  {
    set i: nat | i < upTo && uploads[i].status == status
  }

  lemma {:induction false} TallyIsPlaces(uploads: seq<Upload>, upTo: nat, status: UploadStatus)
    requires upTo <= |uploads|
    ensures Tally(uploads, upTo, status) == |InStatus(uploads, upTo, status)|
  {
    if upTo == 0 {
      assert InStatus(uploads, 0, status) == {};
    } else {
      TallyIsPlaces(uploads, upTo - 1, status);
      InStatusNext(uploads, upTo - 1, status);
    }
  }

  lemma InStatusNext(uploads: seq<Upload>, i: nat, status: UploadStatus)
    requires i < |uploads|
    ensures |InStatus(uploads, i + 1, status)| == |InStatus(uploads, i, status)| + (if uploads[i].status == status then 1 else 0)
  {
    var before := InStatus(uploads, i, status);
    assert i !in before;
    assert InStatus(uploads, i + 1, status) == if uploads[i].status == status then before + {i} else before;
  }

  ghost predicate Once(xs: seq<Anomaly>) { forall i, j :: 0 <= i < j < |xs| ==> xs[i] != xs[j] }

  lemma OnceAppend(xs: seq<Anomaly>, ys: seq<Anomaly>)
    requires Once(xs) && Once(ys) && forall x :: x in xs ==> x !in ys
    ensures Once(xs + ys)
  {
    forall i, j | 0 <= i < j < |xs + ys|
      ensures (xs + ys)[i] != (xs + ys)[j]
    {
      if i < |xs| <= j {
        assert (xs + ys)[i] in xs && (xs + ys)[j] in ys;
      }
    }
  }

  /** Processed data is a dictionary: no key twice. */
  ghost predicate KeysOnce(processed: seq<(string, Json)>) {
    forall i, j :: 0 <= i < j < |processed| ==> processed[i].0 != processed[j].0
  }

  lemma {:induction false} UploadAnomaliesOnce(uploads: seq<Upload>, upTo: nat)
    requires upTo <= |uploads|
    ensures Once(AllUploadAnomalies(uploads, upTo))
  {
    if upTo > 0 {
      UploadAnomaliesOnce(uploads, upTo - 1);
      var before, found := AllUploadAnomalies(uploads, upTo - 1), UploadAnomalies(uploads[upTo - 1], upTo - 1);
      forall a | a in before
        ensures a !in found
      {
        UploadAnomaliesIff(uploads, upTo - 1, a);
        OneUploadIff(uploads, upTo - 1, a);
      }
      OnceAppend(before, found);
    }
  }

  lemma {:induction false} DuplicatesOnce(uploads: seq<Upload>, upTo: nat)
    requires upTo <= |uploads|
    ensures Once(Duplicates(uploads, upTo))
  {
    if upTo > 0 {
      DuplicatesOnce(uploads, upTo - 1);
      DuplicatesIff(uploads, upTo - 1, upTo - 1);
    }
  }

  lemma {:induction false} RangeAnomaliesOnce(processed: seq<(string, Json)>, k: nat)
    requires KeysOnce(processed)
    ensures Once(RangeAnomalies(processed, k))
  {
    if processed != [] {
      var rest, last := processed[..|processed| - 1], processed[|processed| - 1];
      RangeAnomaliesOnce(rest, k);
      RangeAnomaliesIff(rest, k, OutOfRange(k, last.0));
    }
  }

  lemma {:induction false} SourceAnomaliesOnce(sources: seq<Source>, upTo: nat)
    requires upTo <= |sources| && forall k :: 0 <= k < |sources| ==> KeysOnce(sources[k].processed)
    ensures Once(AllSourceAnomalies(sources, upTo))
  {
    if upTo > 0 {
      var s := sources[upTo - 1];
      SourceAnomaliesOnce(sources, upTo - 1);
      RangeAnomaliesOnce(s.processed, upTo - 1);
      var flagged := if s.validation == Flagged || s.validation == SourceRejected then [SourceFlagged(upTo - 1)] else [];
      forall a
        ensures a in AllSourceAnomalies(sources, upTo - 1) ==> a !in flagged + RangeAnomalies(s.processed, upTo - 1)
        ensures a in flagged ==> a !in RangeAnomalies(s.processed, upTo - 1)
      {
        SourceAnomaliesIff(sources, upTo - 1, a);
        RangeAnomaliesIff(s.processed, upTo - 1, a);
      }
      OnceAppend(flagged, RangeAnomalies(s.processed, upTo - 1));
      OnceAppend(AllSourceAnomalies(sources, upTo - 1), flagged + RangeAnomalies(s.processed, upTo - 1));
      assert AllSourceAnomalies(sources, upTo)
          == AllSourceAnomalies(sources, upTo - 1) + (flagged + RangeAnomalies(s.processed, upTo - 1));
    }
  }

  lemma {:induction false} StaleOnce(uploads: seq<Upload>, sources: seq<Source>, m: nat, n: nat, now: Instant)
    requires m <= |uploads| && n <= |sources|
    ensures Once(StaleUploads(uploads, m, now)) && Once(StaleSources(sources, n, now))
    decreases m + n
  {
    if m > 0 {
      StaleOnce(uploads, sources, m - 1, n, now);
      StaleUploadsIff(uploads, m - 1, now, StaleUpload(m - 1));
    } else if n > 0 {
      StaleOnce(uploads, sources, m, n - 1, now);
      StaleSourcesIff(sources, n - 1, now, StaleSource(n - 1));
    }
  }

  /** No anomaly is listed twice, so with `AnomaliesIff` the penalty counts what is
      warranted. */
  lemma AnomaliesOnce(uploads: seq<Upload>, sources: seq<Source>, now: Instant)
    requires forall k :: 0 <= k < |sources| ==> KeysOnce(sources[k].processed)
    ensures Once(Anomalies(uploads, sources, now))
  {
    var a, b := AllUploadAnomalies(uploads, |uploads|), Duplicates(uploads, |uploads|);
    var c := AllSourceAnomalies(sources, |sources|);
    var d, e := StaleUploads(uploads, |uploads|, now), StaleSources(sources, |sources|, now);
    UploadAnomaliesOnce(uploads, |uploads|);
    DuplicatesOnce(uploads, |uploads|);
    SourceAnomaliesOnce(sources, |sources|);
    StaleOnce(uploads, sources, |uploads|, |sources|, now);
    forall x
      ensures x in a ==> x.UnknownType? || x.BadHash? || x.BadSize?
      ensures x in b ==> x.Duplicate?
      ensures x in c ==> x.SourceFlagged? || x.OutOfRange?
      ensures x in d ==> x.StaleUpload?
      ensures x in e ==> x.StaleSource?
    {
      UploadAnomaliesIff(uploads, |uploads|, x);
      DuplicateAnomaliesIff(uploads, |uploads|, x);
      SourceAnomaliesIff(sources, |sources|, x);
      StaleUploadsIff(uploads, |uploads|, now, x);
      StaleSourcesIff(sources, |sources|, now, x);
    }
    OnceAppend(a, b);
    OnceAppend(a + b, c);
    OnceAppend(a + b + c, d);
    OnceAppend(a + b + c + d, e);
  }

  /** However the warranted anomalies are collected, the list is as long. */
  lemma AnomaliesCounted(uploads: seq<Upload>, sources: seq<Source>, now: Instant, warranted: set<Anomaly>)
    requires forall k :: 0 <= k < |sources| ==> KeysOnce(sources[k].processed)
    requires forall a :: a in warranted <==> Warranted(a, uploads, sources, now)
    ensures |Anomalies(uploads, sources, now)| == |warranted|
  {
    var list := Anomalies(uploads, sources, now);
    AnomaliesOnce(uploads, sources, now);
    forall a
      ensures a in list <==> a in warranted
    {
      AnomaliesIff(uploads, sources, now, a);
    }
    OnceSize(list, warranted);
  }

  lemma {:induction false} OnceSize(xs: seq<Anomaly>, members: set<Anomaly>)
    requires Once(xs) && forall a :: a in xs <==> a in members
    ensures |xs| == |members|
  {
    if xs == [] {
      assert members == {};
    } else {
      var n := |xs| - 1;
      assert xs == xs[..n] + [xs[n]] && xs[n] in xs;
      assert forall a :: a in xs[..n] ==> a in xs && a != xs[n];
      OnceSize(xs[..n], members - {xs[n]});
    }
  }

  /** What uploads and anomalies alone are worth. */
  ghost function Expected(uploads: seq<Upload>, anomalies: nat): real {
    var decided := |InStatus(uploads, |uploads|, UploadCompleted)| + |InStatus(uploads, |uploads|, UploadFailed)|;
    var share := if uploads == [] then 1.0 else decided as real / |uploads| as real;
    var left := share - (if anomalies >= 4 then 0.4 else 0.1 * anomalies as real);
    if left < 0.0 then 0.0 else left
  }

  /** What a reply makes of it: a number between 0 and 1, or its nearer end, counts
      against it for six tenths; a boolean, anything else, or no reply does not. */
  ghost function Reviewed(h: real, reply: Reply): real {
    if reply.Review? && reply.severity.Number? then
      var x := reply.severity.value;
      0.4 * h + 0.6 * (1.0 - (if x < 0.0 then 0.0 else if x > 1.0 then 1.0 else x))
    else h
  }

  lemma ReviewMeaning(h: real, reply: Reply)
    requires 0.0 <= h <= 1.0
    ensures ConfidenceFor(h, reply) == Reviewed(h, reply)
  {
  }

  lemma HeuristicMeaning(uploads: seq<Upload>, sources: seq<Source>, anomalies: nat)
    requires uploads != [] || sources != []
    ensures Heuristic(Completeness(uploads, sources), anomalies) == Expected(uploads, anomalies)
    ensures 0.0 <= Expected(uploads, anomalies) <= 1.0
  {
    TallyIsPlaces(uploads, |uploads|, UploadCompleted);
    TallyIsPlaces(uploads, |uploads|, UploadFailed);
    CompletenessRange(uploads, sources);
    if anomalies >= 4 {
      assert 0.1 * anomalies as real >= 0.4;
    } else {
      assert 0.1 * anomalies as real <= 0.3;
    }
  }

  /** Main result: the counters, the confidence and the status of every run, for every
      reply, from the uploads' statuses and the number of anomalies. */
  lemma RunMeaning(uploads: seq<Upload>, sources: seq<Source>, now: Instant, reply: Reply)
    ensures var r, n := Assess(uploads, sources, now, reply), |uploads|;
      var c := Reviewed(Expected(uploads, |Anomalies(uploads, sources, now)|), reply);
      if uploads == [] && sources == [] then r == Assessment(Completed, 0.6, 0, 0, 0, [])
      else
        r.processed == |InStatus(uploads, n, UploadCompleted)|
        && r.queued == |InStatus(uploads, n, Uploaded)| + |InStatus(uploads, n, Processing)|
        && r.failed == |InStatus(uploads, n, UploadFailed)|
        && r.anomalies == Anomalies(uploads, sources, now) && r.confidence == c
        && (r.status == Completed <==> (forall i :: 0 <= i < n ==> uploads[i].status != UploadFailed) && c >= 0.85)
  {
    if uploads != [] || sources != [] {
      var n := |uploads|;
      TallyIsPlaces(uploads, n, UploadCompleted);
      TallyIsPlaces(uploads, n, Uploaded);
      TallyIsPlaces(uploads, n, Processing);
      TallyIsPlaces(uploads, n, UploadFailed);
      HeuristicMeaning(uploads, sources, |Anomalies(uploads, sources, now)|);
      ReviewMeaning(Expected(uploads, |Anomalies(uploads, sources, now)|), reply);
      var failed := InStatus(uploads, n, UploadFailed);
      assert failed == {} <==> forall i :: 0 <= i < n ==> uploads[i].status != UploadFailed by {
        assert forall i: nat :: i < n && uploads[i].status == UploadFailed ==> i in failed;
      }
    }
  }
}
