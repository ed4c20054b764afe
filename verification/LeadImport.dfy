/** The bulk import of leads: one look-up for the whole batch, a flush for each
    item, and a session that one failed flush disables until it is rolled back. */
module LeadImport {
  import opened Prelude

  type Id = nat
  type Instant = int

  /** Further bounded text columns, which only the scrape writes. */
  datatype Column = Developer | Country | Region | Methodology | Sector

  function Limit(c: Column): nat {
    match c
    case Developer => 500
    case Country => 100
    case Region => 200
    case Methodology => 100
    case Sector => 100
  }

  /** A row, stored or about to be; the name is the one text that a writer can leave
      null although its column does not allow it. */
  datatype Lead = Lead(
    registry: string, externalId: string, name: Option<string>, url: Option<string>, status: string,
    others: map<Column, string>, isNew: bool, updatedAt: Instant)

  type Rows = map<Id, Lead>

  datatype Item = Item(externalId: string, name: Option<string>, url: Option<string>, status: Option<string>)

  predicate HasKey(l: Lead, registry: string, externalId: string) {
    l.registry == registry && l.externalId == externalId
  }

  /** The unique constraint on registry and external id. */
  predicate Unique(rows: Rows) {
    forall i, j :: i in rows && j in rows && HasKey(rows[i], rows[j].registry, rows[j].externalId) ==> i == j
  }

  ghost predicate Present(rows: Rows, registry: string, externalId: string) {
    exists i :: i in rows && HasKey(rows[i], registry, externalId)
  }

  const STATUSES: set<string> := {
    "under_validation", "under_verification", "under_certification", "request_for_issuance",
    "registered", "certified", "rejected", "completed", "unknown"}

  const REGISTRIES: set<string> := {"verra", "gold_standard", "cdm", "kenya_national", "manual"}

  /** The columns take the row: bounded texts, a name, and an enumerated status. */
  predicate Storable(l: Lead) {
    && |l.externalId| <= 255 && l.name.Some? && |l.name.value| <= 500 && l.status in STATUSES
    && forall c :: c in l.others ==> |l.others[c]| <= Limit(c)
  }

  /** What the schema keeps of the table. */
  predicate Sound(rows: Rows) { Unique(rows) && forall i :: i in rows ==> Storable(rows[i]) }

  // ---- one item, on its own ----

  /** Python's `a or b` on an optional string. */
  function OrElse(v: Option<string>, otherwise: string): string {
    if v.Some? && v.value != "" then v.value else otherwise
  }

  function GetOr(v: Option<string>, otherwise: string): string { if v.Some? then v.value else otherwise }

  function Updated(l: Lead, item: Item, now: Instant): Lead {
    l.(name := if item.name.Some? then item.name else l.name,
       url := if item.url.Some? then item.url else l.url,
       status := GetOr(item.status, l.status),
       updatedAt := now)
  }

  function Created(registry: string, item: Item, now: Instant): Lead {
    Lead(registry, item.externalId, Some(OrElse(item.name, item.externalId)), item.url, OrElse(item.status, "unknown"),
         map[], true, now)
  }

  /** Looking the item's lead up in the table as it is: update it, or add a row. */
  ghost function ImportOne(rows: Rows, registry: string, item: Item, newId: Id, now: Instant): Rows {
    if Present(rows, registry, item.externalId) then
      var i :| i in rows && HasKey(rows[i], registry, item.externalId);
      rows[i := Updated(rows[i], item, now)]
    else rows[newId := Created(registry, item, now)]
  }

  /** One request's inputs for an item: the row id it would get, and whether its
      flush fails for a reason that is not in the row, such as a lost connection. */
  datatype Job = Job(item: Item, newId: Id, outage: bool)

  /** The table after the items, each on its own. */
  ghost function ImportAll(rows: Rows, registry: string, jobs: seq<Job>, now: Instant): Rows {
    if jobs == [] then rows
    else
      var job := jobs[|jobs| - 1];
      ImportOne(ImportAll(rows, registry, jobs[..|jobs| - 1], now), registry, job.item, job.newId, now)
  }

  /** The columns take what the item gives, for a stored lead or for a new one: an
      empty status is replaced only when a lead is created. */
  predicate Acceptable(item: Item, known: bool) {
    && (item.name.Some? ==> |item.name.value| <= 500)
    && (!known ==> |item.externalId| <= 255)
    && (item.status.Some? && (known || item.status.value != "") ==> item.status.value in STATUSES)
  }

  lemma AcceptableIff(registry: string, item: Item, l: Lead, now: Instant)
    requires Storable(l)
    ensures Storable(Updated(l, item, now)) <==> Acceptable(item, true)
    ensures Storable(Created(registry, item, now)) <==> Acceptable(item, false)
  {
  }

  /** The flush of the item fails. */
  ghost predicate Refused(rows: Rows, registry: string, job: Job) {
    job.outage || !Acceptable(job.item, Present(rows, registry, job.item.externalId))
  }

  ghost predicate DistinctItems(jobs: seq<Job>) {
    forall i, j :: 0 <= i < j < |jobs| ==> jobs[i].item.externalId != jobs[j].item.externalId
  }

  /** Row ids are fresh: unused and different from each other. */
  ghost predicate FreshIds(rows: Rows, jobs: seq<Job>) {
    (forall i :: 0 <= i < |jobs| ==> jobs[i].newId !in rows)
    && forall i, j :: 0 <= i < j < |jobs| ==> jobs[i].newId != jobs[j].newId
  }

  // ---- the table after a batch ----

  /** One item keeps keys unique, adds at most its own row, and rewrites at most
      the row that has its key. */
  lemma ImportOneKeys(rows: Rows, registry: string, item: Item, newId: Id, now: Instant)
    requires Unique(rows) && newId !in rows
    ensures Unique(ImportOne(rows, registry, item, newId, now))
    ensures ImportOne(rows, registry, item, newId, now).Keys
         == rows.Keys + (if Present(rows, registry, item.externalId) then {} else {newId})
  {
  }

  lemma ImportOneRow(rows: Rows, registry: string, item: Item, newId: Id, now: Instant, i: Id)
    requires Unique(rows) && newId !in rows && i in rows
    ensures i in ImportOne(rows, registry, item, newId, now)
    ensures ImportOne(rows, registry, item, newId, now)[i]
         == if HasKey(rows[i], registry, item.externalId) then Updated(rows[i], item, now) else rows[i]
  {
  }

  /** After a batch keys are still unique, no row is gone, and rows are added only
      under the ids of its items. */
  lemma {:induction false} BatchKeepsUnique(rows: Rows, registry: string, jobs: seq<Job>, now: Instant)
    requires Unique(rows) && FreshIds(rows, jobs)
    ensures Unique(ImportAll(rows, registry, jobs, now))
    ensures rows.Keys <= ImportAll(rows, registry, jobs, now).Keys
    ensures forall i :: i in ImportAll(rows, registry, jobs, now) && i !in rows ==>
      exists k :: 0 <= k < |jobs| && jobs[k].newId == i
  {
    if jobs != [] {
      var n := |jobs| - 1;
      var before := ImportAll(rows, registry, jobs[..n], now);
      BatchKeepsUnique(rows, registry, jobs[..n], now);
      assert jobs[n].newId !in before;
      ImportOneKeys(before, registry, jobs[n].item, jobs[n].newId, now);
    }
  }

  lemma LastJobFresh(rows: Rows, registry: string, jobs: seq<Job>, now: Instant)
    requires jobs != [] && Unique(rows) && FreshIds(rows, jobs)
    ensures Unique(ImportAll(rows, registry, jobs[..|jobs| - 1], now))
    ensures jobs[|jobs| - 1].newId !in ImportAll(rows, registry, jobs[..|jobs| - 1], now)
  {
    BatchKeepsUnique(rows, registry, jobs[..|jobs| - 1], now);
  }

  /** A row that no item names is untouched. */
  lemma {:induction false} BatchLeavesOthers(rows: Rows, registry: string, jobs: seq<Job>, now: Instant, i: Id)
    requires Unique(rows) && FreshIds(rows, jobs)
    requires i in rows && forall k :: 0 <= k < |jobs| ==> !HasKey(rows[i], registry, jobs[k].item.externalId)
    ensures i in ImportAll(rows, registry, jobs, now) && ImportAll(rows, registry, jobs, now)[i] == rows[i]
  {
    if jobs != [] {
      var n := |jobs| - 1;
      BatchLeavesOthers(rows, registry, jobs[..n], now, i);
      LastJobFresh(rows, registry, jobs, now);
      ImportOneRow(ImportAll(rows, registry, jobs[..n], now), registry, jobs[n].item, jobs[n].newId, now, i);
    }
  }

  /** A stored lead that an item names is updated by that item alone. */
  lemma {:induction false} BatchUpdates(rows: Rows, registry: string, jobs: seq<Job>, now: Instant, i: Id, k: nat)
    requires Unique(rows) && FreshIds(rows, jobs) && DistinctItems(jobs)
    requires i in rows && k < |jobs| && HasKey(rows[i], registry, jobs[k].item.externalId)
    ensures i in ImportAll(rows, registry, jobs, now)
    ensures ImportAll(rows, registry, jobs, now)[i] == Updated(rows[i], jobs[k].item, now)
  {
    var n := |jobs| - 1;
    var before := ImportAll(rows, registry, jobs[..n], now);
    LastJobFresh(rows, registry, jobs, now);
    if k == n {
      BatchLeavesOthers(rows, registry, jobs[..n], now, i);
    } else {
      BatchUpdates(rows, registry, jobs[..n], now, i, k);
    }
    ImportOneRow(before, registry, jobs[n].item, jobs[n].newId, now, i);
  }

  /** Whether a key is stored after a batch: it was, or an item names it. */
  lemma {:induction false} BatchPresence(rows: Rows, registry: string, jobs: seq<Job>, now: Instant, key: string)
    requires Unique(rows) && FreshIds(rows, jobs)
    ensures Present(ImportAll(rows, registry, jobs, now), registry, key) <==>
      Present(rows, registry, key) || exists k :: 0 <= k < |jobs| && jobs[k].item.externalId == key
  {
    if jobs != [] {
      var n := |jobs| - 1;
      BatchPresence(rows, registry, jobs[..n], now, key);
      LastJobFresh(rows, registry, jobs, now);
      OnePresence(ImportAll(rows, registry, jobs[..n], now), registry, jobs[n].item, jobs[n].newId, now, key);
      assert forall k :: 0 <= k < n ==> jobs[..n][k] == jobs[k];
    }
  }

  lemma OnePresence(rows: Rows, registry: string, item: Item, newId: Id, now: Instant, key: string)
    requires Unique(rows) && newId !in rows
    ensures Present(ImportOne(rows, registry, item, newId, now), registry, key) <==>
      Present(rows, registry, key) || item.externalId == key
  {
    var after := ImportOne(rows, registry, item, newId, now);
    ImportOneKeys(rows, registry, item, newId, now);
    forall i | i in rows
      ensures i in after && after[i].registry == rows[i].registry && after[i].externalId == rows[i].externalId
    {
      ImportOneRow(rows, registry, item, newId, now, i);
    }
    if Present(rows, registry, key) {
      var i :| i in rows && HasKey(rows[i], registry, key);
      assert HasKey(after[i], registry, key);
    }
    if item.externalId == key && !Present(rows, registry, key) {
      assert HasKey(after[newId], registry, key);
    }
  }

  /** An item that names no stored lead adds its row, as created. */
  lemma {:induction false} BatchCreates(rows: Rows, registry: string, jobs: seq<Job>, now: Instant, k: nat)
    requires Unique(rows) && FreshIds(rows, jobs) && DistinctItems(jobs)
    requires k < |jobs| && !Present(rows, registry, jobs[k].item.externalId)
    ensures jobs[k].newId in ImportAll(rows, registry, jobs, now)
    ensures ImportAll(rows, registry, jobs, now)[jobs[k].newId] == Created(registry, jobs[k].item, now)
  {
    var n := |jobs| - 1;
    var before := ImportAll(rows, registry, jobs[..n], now);
    LastJobFresh(rows, registry, jobs, now);
    if k == n {
      BatchPresence(rows, registry, jobs[..n], now, jobs[n].item.externalId);
      assert !Present(before, registry, jobs[n].item.externalId);
    } else {
      BatchCreates(rows, registry, jobs[..n], now, k);
      ImportOneRow(before, registry, jobs[n].item, jobs[n].newId, now, jobs[k].newId);
    }
  }

  // ---- importing the same list again ----

  ghost predicate NoneRefused(rows: Rows, registry: string, jobs: seq<Job>) {
    forall k :: 0 <= k < |jobs| ==> !Refused(rows, registry, jobs[k])
  }

  ghost predicate SameItems(jobs: seq<Job>, again: seq<Job>) {
    |jobs| == |again| && forall k :: 0 <= k < |jobs| ==> jobs[k].item == again[k].item
  }

  /** Equal but for the time of the last write. */
  predicate SameContent(a: Lead, b: Lead) { a.(updatedAt := 0) == b.(updatedAt := 0) }

  lemma {:induction false} PresentBatchAddsNone(rows: Rows, registry: string, jobs: seq<Job>, now: Instant)
    requires Unique(rows) && FreshIds(rows, jobs)
    requires forall k :: 0 <= k < |jobs| ==> Present(rows, registry, jobs[k].item.externalId)
    ensures ImportAll(rows, registry, jobs, now).Keys == rows.Keys
  {
    if jobs != [] {
      var n := |jobs| - 1;
      PresentBatchAddsNone(rows, registry, jobs[..n], now);
      LastJobFresh(rows, registry, jobs, now);
      BatchPresence(rows, registry, jobs[..n], now, jobs[n].item.externalId);
      ImportOneKeys(ImportAll(rows, registry, jobs[..n], now), registry, jobs[n].item, jobs[n].newId, now);
    }
  }

  /** Main result: after a batch every item has exactly one lead, and the same batch
      again adds none. */
  lemma ReimportAddsNone(rows: Rows, registry: string, jobs: seq<Job>, again: seq<Job>, now: Instant, later: Instant)
    requires Unique(rows) && DistinctItems(jobs) && SameItems(jobs, again)
    requires FreshIds(rows, jobs) && FreshIds(ImportAll(rows, registry, jobs, now), again)
    ensures Unique(ImportAll(rows, registry, jobs, now))
    ensures forall k :: 0 <= k < |jobs| ==> Present(ImportAll(rows, registry, jobs, now), registry, jobs[k].item.externalId)
    ensures ImportAll(ImportAll(rows, registry, jobs, now), registry, again, later).Keys == ImportAll(rows, registry, jobs, now).Keys
  {
    var after := ImportAll(rows, registry, jobs, now);
    BatchKeepsUnique(rows, registry, jobs, now);
    forall k | 0 <= k < |jobs|
      ensures Present(after, registry, jobs[k].item.externalId)
    {
      BatchPresence(rows, registry, jobs, now, jobs[k].item.externalId);
    }
    PresentBatchAddsNone(after, registry, again, later);
  }

  /** A list that was imported is refused the second time, without any outage,
      exactly when it gives some item an empty status: the first import took it for
      no status, the second writes it into a column that has no such value. */
  lemma ReimportRefusedIff(rows: Rows, registry: string, jobs: seq<Job>, again: seq<Job>, now: Instant)
    requires Unique(rows) && FreshIds(rows, jobs) && NoneRefused(rows, registry, jobs) && SameItems(jobs, again)
    requires forall k :: 0 <= k < |again| ==> !again[k].outage
    ensures !NoneRefused(ImportAll(rows, registry, jobs, now), registry, again)
       <==> exists k :: 0 <= k < |jobs| && jobs[k].item.status == Some("")
  {
    var after := ImportAll(rows, registry, jobs, now);
    forall k | 0 <= k < |jobs|
      ensures Refused(after, registry, again[k]) <==> jobs[k].item.status == Some("")
    {
      BatchPresence(rows, registry, jobs, now, jobs[k].item.externalId);
      assert Present(after, registry, again[k].item.externalId) && !Refused(rows, registry, jobs[k]);
      assert "" !in STATUSES;
    }
    if exists k :: 0 <= k < |jobs| && jobs[k].item.status == Some("") {
      var k :| 0 <= k < |jobs| && jobs[k].item.status == Some("");
      assert Refused(after, registry, again[k]);
    }
  }

  /** The name reads the same to the code that creates a lead and to the code that
      updates one: an empty one counts as absent only for the first. */
  predicate NameStable(item: Item) { item.name == Some("") ==> item.externalId == "" }

  lemma CreateThenUpdateIff(registry: string, item: Item, now: Instant, later: Instant)
    requires item.status != Some("")
    ensures SameContent(Updated(Created(registry, item, now), item, later), Created(registry, item, now)) <==> NameStable(item)
  {
  }

  lemma UpdateTwice(l: Lead, item: Item, now: Instant, later: Instant)
    ensures SameContent(Updated(Updated(l, item, now), item, later), Updated(l, item, now))
  {
  }

  /** What a second import that is not refused does to the lead of one item: it
      changes the content exactly when the first import created the lead from an
      item with an empty name. */
  lemma ReimportContentIff(rows: Rows, registry: string, jobs: seq<Job>, again: seq<Job>, now: Instant, later: Instant, k: nat, i: Id)
    requires Unique(rows) && DistinctItems(jobs) && DistinctItems(again) && SameItems(jobs, again)
    requires FreshIds(rows, jobs) && FreshIds(ImportAll(rows, registry, jobs, now), again)
    requires k < |jobs| && i in ImportAll(rows, registry, jobs, now) && jobs[k].item.status != Some("")
    requires HasKey(ImportAll(rows, registry, jobs, now)[i], registry, jobs[k].item.externalId)
    ensures i in ImportAll(ImportAll(rows, registry, jobs, now), registry, again, later)
    ensures SameContent(ImportAll(ImportAll(rows, registry, jobs, now), registry, again, later)[i], ImportAll(rows, registry, jobs, now)[i])
       <==> Present(rows, registry, jobs[k].item.externalId) || NameStable(jobs[k].item)
  {
    var after, item := ImportAll(rows, registry, jobs, now), jobs[k].item;
    BatchKeepsUnique(rows, registry, jobs, now);
    BatchUpdates(after, registry, again, later, i, k);
    if Present(rows, registry, item.externalId) {
      var j :| j in rows && HasKey(rows[j], registry, item.externalId);
      BatchUpdates(rows, registry, jobs, now, j, k);
      assert HasKey(after[j], registry, item.externalId);
      assert i == j;
      UpdateTwice(rows[j], item, now, later);
    } else {
      BatchCreates(rows, registry, jobs, now, k);
      assert HasKey(after[jobs[k].newId], registry, item.externalId);
      assert i == jobs[k].newId;
      CreateThenUpdateIff(registry, item, now, later);
    }
  }

  // ---- the handler ----

  datatype Response = Response(created: nat, updated: nat, errors: nat, leads: seq<Id>)

  datatype Reply = UnknownRegistry | DuplicateIds | CommitFailed | Imported(response: Response)

  function ExternalIds(jobs: seq<Job>): set<string> {
    if jobs == [] then {} else ExternalIds(jobs[..|jobs| - 1]) + {jobs[|jobs| - 1].item.externalId}
  }

  lemma {:induction false} ExternalIdsMeaning(jobs: seq<Job>, key: string)
    ensures key in ExternalIds(jobs) <==> exists k :: 0 <= k < |jobs| && jobs[k].item.externalId == key
  {
    if jobs != [] {
      var n := |jobs| - 1;
      ExternalIdsMeaning(jobs[..n], key);
      assert forall k :: 0 <= k < n ==> jobs[..n][k] == jobs[k];
      assert jobs[n].item.externalId in ExternalIds(jobs);
    }
  }

  /** A list is as long as the set of its ids exactly when none repeats. */
  lemma {:induction false} LengthTellsDistinct(jobs: seq<Job>)
    ensures |ExternalIds(jobs)| <= |jobs|
    ensures |ExternalIds(jobs)| == |jobs| <==> DistinctItems(jobs)
  {
    if jobs != [] {
      var n := |jobs| - 1;
      LengthTellsDistinct(jobs[..n]);
      ExternalIdsMeaning(jobs[..n], jobs[n].item.externalId);
      DistinctSnoc(jobs, n);
    }
  }

  lemma DistinctSnoc(jobs: seq<Job>, n: nat)
    requires n + 1 == |jobs|
    ensures DistinctItems(jobs) <==>
      DistinctItems(jobs[..n]) && !(exists k :: 0 <= k < n && jobs[..n][k].item.externalId == jobs[n].item.externalId)
  {
    assert forall k :: 0 <= k < n ==> jobs[..n][k] == jobs[k];
  }

  /** A dictionary by external id agrees with the table on some keys. */
  ghost predicate Agrees(existing: map<string, Id>, rows: Rows, registry: string, keys: set<string>) {
    && (forall key :: key in keys ==> (key in existing <==> Present(rows, registry, key)))
    && (forall key :: key in existing ==> key in keys && existing[key] in rows && HasKey(rows[existing[key]], registry, key))
  }

  /** The items that are new to the table. */
  ghost function NewItems(rows: Rows, registry: string, jobs: seq<Job>): nat {
    if jobs == [] then 0
    else NewItems(rows, registry, jobs[..|jobs| - 1])
         + (if Present(rows, registry, jobs[|jobs| - 1].item.externalId) then 0 else 1)
  }

  /** The ids that the batch reports: each names the stored lead of its item. */
  ghost predicate NamesItems(leads: seq<Id>, rows: Rows, registry: string, jobs: seq<Job>) {
    |leads| == |jobs|
    && forall k :: 0 <= k < |jobs| ==> leads[k] in rows && HasKey(rows[leads[k]], registry, jobs[k].item.externalId)
  }

  /** When a batch is stored; otherwise nothing of it is. */
  ghost predicate StoredAsWhole(rows: Rows, registry: string, jobs: seq<Job>, outage: bool) {
    registry in REGISTRIES && DistinctItems(jobs) && !outage && NoneRefused(rows, registry, jobs)
  }

  /** The loop's own variables. */
  datatype Books = Books(existing: map<string, Id>, created: nat, updated: nat, errors: nat, leads: seq<Id>)

  /** The session and the books after `k` items: as long as no flush has failed, the
      transaction holds all of them and nothing has been counted as an error. */
  ghost predicate InStep(b: Books, rows: Rows, pending: Rows, active: bool, registry: string, jobs: seq<Job>, k: nat, now: Instant)
    requires k <= |jobs|
  {
    && AgreesFrom(b.existing, rows, registry, jobs, k)
    && (active <==> NoneRefused(rows, registry, jobs[..k]))
    && (active ==> b.errors == 0 && pending == ImportAll(rows, registry, jobs[..k], now)
                   && NamesItems(b.leads, pending, registry, jobs[..k]))
    && b.created + b.updated == k && b.created == NewItems(rows, registry, jobs[..k]) && |b.leads| + b.errors == k
  }

  /** No row is gone, and each still has its key. */
  ghost predicate KeysKept(before: Rows, after: Rows) {
    forall i :: i in before ==> i in after && HasKey(after[i], before[i].registry, before[i].externalId)
  }

  /** The stored rows, and the session of one request: the rows of its transaction,
      and whether it still has one. */
  class LeadStore {
    var rows: Rows
    var pending: Rows
    var active: bool

    ghost predicate Valid()
      reads this
    {
      Sound(rows) && Sound(pending) && (!active ==> pending == rows)
    }

    /** Between requests. */
    ghost predicate Clean()
      reads this
    {
      Sound(rows) && pending == rows && active
    }

    constructor ()
      ensures rows == map[] && Clean()
    {
      rows, pending, active := map[], map[], true;
    }

    /** SELECT the batch's leads, as a dictionary by external id. */
    method Load(registry: string, keys: set<string>) returns (existing: map<string, Id>)
      requires Unique(rows)
      ensures Agrees(existing, rows, registry, keys)
    {
      existing := map i | i in rows && rows[i].registry == registry && rows[i].externalId in keys :: rows[i].externalId := i;
    }

    /** A flush that fails rolls the transaction back, with everything flushed before
        it; from then on every flush fails. */
    method Flush(next: Rows, outage: bool) returns (ok: bool)
      requires Valid()
      modifies this`pending, this`active
      ensures Valid()
      ensures ok <==> old(active) && !outage && Sound(next)
      ensures active == ok && pending == if ok then next else rows
    {
      ok := active && !outage && Sound(next);
      active := ok;
      pending := if ok then next else rows;
    }

    /** A commit fails without a transaction; the request then ends in a rollback. */
    method Commit(outage: bool) returns (ok: bool)
      requires Valid()
      modifies this
      ensures Clean()
      ensures ok <==> old(active) && !outage
      ensures rows == if ok then old(pending) else old(rows)
    {
      ok := active && !outage;
      if ok {
        rows := pending;
      }
      pending, active := rows, true;
    }

    /** One item of the batch, up to its flush. */
    method FlushItem(registry: string, existing: map<string, Id>, jobs: seq<Job>, k: nat, now: Instant)
      returns (id: Id, isNew: bool, ok: bool)
      requires k < |jobs| && FreshIds(rows, jobs) && DistinctItems(jobs) && AgreesFrom(existing, rows, registry, jobs, k)
      requires Valid() && (active ==> pending == ImportAll(rows, registry, jobs[..k], now))
      modifies this`pending, this`active
      ensures Valid() && active == ok
      ensures isNew <==> !Present(rows, registry, jobs[k].item.externalId)
      ensures ok <==> old(active) && !Refused(rows, registry, jobs[k])
      ensures ok ==> pending == ImportAll(rows, registry, jobs[..k + 1], now)
      ensures ok ==> id in pending && HasKey(pending[id], registry, jobs[k].item.externalId) && KeysKept(old(pending), pending)
    {
      var job := jobs[k];
      isNew := job.item.externalId !in existing;
      var lead;
      if !isNew {
        id := existing[job.item.externalId];
        NextUpdates(rows, registry, jobs, k, now, id);
        UpdateRefusedIff(rows, registry, job, now, id);
        lead := Updated(pending[id], job.item, now);
      } else {
        id := job.newId;
        NextCreates(rows, registry, jobs, k, now);
        lead := Created(registry, job.item, now);
      }
      if active {
        SoundAfterWrite(pending, id, lead);
      }
      ok := Flush(pending[id := lead], job.outage);
    }

    /** One turn of the loop: an item that fails is counted, and the loop goes on. */
    method ImportItem(registry: string, b: Books, jobs: seq<Job>, k: nat, now: Instant) returns (next: Books)
      requires k < |jobs| && FreshIds(rows, jobs) && DistinctItems(jobs)
      requires Valid() && InStep(b, rows, pending, active, registry, jobs, k, now)
      modifies this`pending, this`active
      ensures Valid() && InStep(next, rows, pending, active, registry, jobs, k + 1, now)
    {
      BatchSnoc(rows, registry, jobs, k, now);
      ghost var before := pending;
      var id, isNew, ok := FlushItem(registry, b.existing, jobs, k, now);
      DictionaryStays(b.existing, id, rows, registry, jobs, k);
      next := if isNew then b.(created := b.created + 1) else b.(updated := b.updated + 1);
      if ok {
        NamesSnoc(b.leads, id, before, pending, registry, jobs, k);
        next := next.(leads := b.leads + [id], existing := b.existing[jobs[k].item.externalId := id]);
      } else {
        next := next.(errors := b.errors + 1);
      }
    }

    method ImportItems(registry: string, existing: map<string, Id>, jobs: seq<Job>, now: Instant) returns (b: Books)
      requires Clean() && FreshIds(rows, jobs) && DistinctItems(jobs) && AgreesFrom(existing, rows, registry, jobs, 0)
      modifies this`pending, this`active
      ensures Valid() && InStep(b, rows, pending, active, registry, jobs, |jobs|, now)
    {
      b := Books(existing, 0, 0, 0, []);
      var k := 0;
      while k < |jobs|
        invariant 0 <= k <= |jobs|
        invariant Valid() && InStep(b, rows, pending, active, registry, jobs, k, now)
      {
        b := ImportItem(registry, b, jobs, k, now);
        k := k + 1;
      }
    }

    /** The batch is looked up once, each item is flushed, and one commit follows.
        It is stored as a whole, as if each lead were looked up on its own, exactly
        when no flush fails: one refused item loses all of them. */
    method BulkImport(registry: string, jobs: seq<Job>, now: Instant, outage: bool) returns (reply: Reply)
      requires Clean() && FreshIds(rows, jobs)
      modifies this
      ensures Clean()
      ensures reply.UnknownRegistry? <==> registry !in REGISTRIES
      ensures reply.DuplicateIds? <==> registry in REGISTRIES && !DistinctItems(jobs)
      ensures reply.Imported? <==> StoredAsWhole(old(rows), registry, jobs, outage)
      ensures rows == if reply.Imported? then ImportAll(old(rows), registry, jobs, now) else old(rows)
      ensures reply.Imported? ==>
        reply.response.errors == 0 && reply.response.created == NewItems(old(rows), registry, jobs)
        && reply.response.created + reply.response.updated == |jobs|
        && NamesItems(reply.response.leads, rows, registry, jobs)
    {
      if registry !in REGISTRIES {
        return UnknownRegistry;
      }
      var keys := ExternalIds(jobs);
      LengthTellsDistinct(jobs);
      if |jobs| != |keys| {
        return DuplicateIds;
      }
      var existing := Load(registry, keys);
      AgreesOnItems(existing, rows, registry, jobs);
      var b := ImportItems(registry, existing, jobs, now);
      assert jobs[..|jobs|] == jobs;
      var ok := Commit(outage);
      return if ok then Imported(Response(b.created, b.updated, b.errors, b.leads)) else CommitFailed;
    }
  }

  /** The dictionary still agrees with the stored table on the items to come. */
  ghost predicate AgreesFrom(existing: map<string, Id>, rows: Rows, registry: string, jobs: seq<Job>, k: nat) {
    forall i :: k <= i < |jobs| ==>
      var key := jobs[i].item.externalId;
      (key in existing <==> Present(rows, registry, key))
      && (key in existing ==> existing[key] in rows && HasKey(rows[existing[key]], registry, key))
  }

  lemma DictionaryStays(existing: map<string, Id>, id: Id, rows: Rows, registry: string, jobs: seq<Job>, k: nat)
    requires k < |jobs| && DistinctItems(jobs) && AgreesFrom(existing, rows, registry, jobs, k)
    ensures AgreesFrom(existing, rows, registry, jobs, k + 1)
    ensures AgreesFrom(existing[jobs[k].item.externalId := id], rows, registry, jobs, k + 1)
  {
  }

  lemma AgreesOnItems(existing: map<string, Id>, rows: Rows, registry: string, jobs: seq<Job>)
    requires Agrees(existing, rows, registry, ExternalIds(jobs))
    ensures AgreesFrom(existing, rows, registry, jobs, 0)
  {
    forall i | 0 <= i < |jobs|
      ensures jobs[i].item.externalId in ExternalIds(jobs)
    {
      ExternalIdsMeaning(jobs, jobs[i].item.externalId);
    }
  }

  /** One more job of a batch. */
  lemma BatchSnoc(rows: Rows, registry: string, jobs: seq<Job>, k: nat, now: Instant)
    requires k < |jobs|
    ensures NoneRefused(rows, registry, jobs[..k + 1]) <==> NoneRefused(rows, registry, jobs[..k]) && !Refused(rows, registry, jobs[k])
    ensures NewItems(rows, registry, jobs[..k + 1])
         == NewItems(rows, registry, jobs[..k]) + (if Present(rows, registry, jobs[k].item.externalId) then 0 else 1)
    ensures ImportAll(rows, registry, jobs[..k + 1], now)
         == ImportOne(ImportAll(rows, registry, jobs[..k], now), registry, jobs[k].item, jobs[k].newId, now)
  {
    assert jobs[..k + 1][..k] == jobs[..k];
    assert jobs[..k + 1] == jobs[..k] + [jobs[k]];
  }

  lemma SoundAfterWrite(rows: Rows, i: Id, l: Lead)
    requires Sound(rows) && Unique(rows[i := l])
    ensures Sound(rows[i := l]) <==> Storable(l)
  {
    assert i in rows[i := l] && rows[i := l][i] == l;
  }

  /** The next item names a stored lead: its row is still as stored. */
  lemma NextUpdates(rows: Rows, registry: string, jobs: seq<Job>, k: nat, now: Instant, i: Id)
    requires Sound(rows) && FreshIds(rows, jobs) && DistinctItems(jobs)
    requires k < |jobs| && i in rows && HasKey(rows[i], registry, jobs[k].item.externalId)
    ensures var pending := ImportAll(rows, registry, jobs[..k], now);
      i in pending && pending[i] == rows[i]
      && ImportAll(rows, registry, jobs[..k + 1], now) == pending[i := Updated(rows[i], jobs[k].item, now)]
      && Unique(pending[i := Updated(rows[i], jobs[k].item, now)])
  {
    BatchSnoc(rows, registry, jobs, k, now);
    BatchKeepsUnique(rows, registry, jobs[..k], now);
    BatchKeepsUnique(rows, registry, jobs[..k + 1], now);
    BatchLeavesOthers(rows, registry, jobs[..k], now, i);
    ImportOneUpdates(ImportAll(rows, registry, jobs[..k], now), registry, jobs[k].item, jobs[k].newId, now, i);
  }

  lemma UpdateRefusedIff(rows: Rows, registry: string, job: Job, now: Instant, i: Id)
    requires Sound(rows) && i in rows && HasKey(rows[i], registry, job.item.externalId)
    ensures Refused(rows, registry, job) <==> job.outage || !Storable(Updated(rows[i], job.item, now))
  {
    AcceptableIff(registry, job.item, rows[i], now);
  }

  lemma ImportOneUpdates(rows: Rows, registry: string, item: Item, newId: Id, now: Instant, i: Id)
    requires Unique(rows) && i in rows && HasKey(rows[i], registry, item.externalId)
    ensures ImportOne(rows, registry, item, newId, now) == rows[i := Updated(rows[i], item, now)]
  {
  }

  /** The next item names no stored lead. */
  lemma NextCreates(rows: Rows, registry: string, jobs: seq<Job>, k: nat, now: Instant)
    requires Sound(rows) && FreshIds(rows, jobs) && DistinctItems(jobs)
    requires k < |jobs| && !Present(rows, registry, jobs[k].item.externalId)
    ensures var pending := ImportAll(rows, registry, jobs[..k], now);
      ImportAll(rows, registry, jobs[..k + 1], now) == pending[jobs[k].newId := Created(registry, jobs[k].item, now)]
      && jobs[k].newId !in pending && Unique(pending[jobs[k].newId := Created(registry, jobs[k].item, now)])
    ensures Refused(rows, registry, jobs[k]) <==> jobs[k].outage || !Storable(Created(registry, jobs[k].item, now))
  {
    BatchSnoc(rows, registry, jobs, k, now);
    BatchPresence(rows, registry, jobs[..k], now, jobs[k].item.externalId);
    EarlierIdsDiffer(rows, registry, jobs, k, now);
    BatchKeepsUnique(rows, registry, jobs[..k + 1], now);
    AcceptableIff(registry, jobs[k].item, Lead("", "", Some(""), None, "unknown", map[], true, now), now);
  }

  lemma EarlierIdsDiffer(rows: Rows, registry: string, jobs: seq<Job>, k: nat, now: Instant)
    requires Unique(rows) && FreshIds(rows, jobs) && k < |jobs|
    ensures jobs[k].newId !in ImportAll(rows, registry, jobs[..k], now)
  {
    BatchKeepsUnique(rows, registry, jobs[..k], now);
  }

  lemma NamesSnoc(leads: seq<Id>, id: Id, before: Rows, after: Rows, registry: string, jobs: seq<Job>, k: nat)
    requires k < |jobs| && NamesItems(leads, before, registry, jobs[..k])
    requires KeysKept(before, after)
    requires id in after && HasKey(after[id], registry, jobs[k].item.externalId)
    ensures NamesItems(leads + [id], after, registry, jobs[..k + 1])
  {
  }

  /** One bad status is enough: of two new leads the first alone would be stored, and
      both together are not. */
  lemma BadStatusLosesBatch(status: string)
    requires status !in STATUSES && status != ""
    ensures var jobs := [Job(Item("A", None, None, None), 0, false), Job(Item("B", None, None, Some(status)), 1, false)];
      StoredAsWhole(map[], "verra", jobs[..1], false) && !StoredAsWhole(map[], "verra", jobs, false)
  {
    var jobs := [Job(Item("A", None, None, None), 0, false), Job(Item("B", None, None, Some(status)), 1, false)];
    assert !Refused(map[], "verra", jobs[0]) && Refused(map[], "verra", jobs[1]);
  }

  // ---- rows and conditions, in the words of the item ----

  /** What the schema takes, with its limits written out. */
  lemma StorableMeaning(l: Lead)
    ensures Storable(l) <==>
      && |l.externalId| <= 255 && l.name != None && |l.name.value| <= 500
      && (l.status == "under_validation" || l.status == "under_verification" || l.status == "under_certification"
          || l.status == "request_for_issuance" || l.status == "registered" || l.status == "certified"
          || l.status == "rejected" || l.status == "completed" || l.status == "unknown")
      && (Developer in l.others ==> |l.others[Developer]| <= 500) && (Region in l.others ==> |l.others[Region]| <= 200)
      && (forall c :: c in l.others && (c == Country || c == Methodology || c == Sector) ==> |l.others[c]| <= 100)
  {
  }

  /** A given text replaces the old one. */
  ghost function IfGiven(text: Option<string>, before: string): string { match text case Some(x) => x case None => before }

  /** After a batch that commits: a stored lead has the item's name, link and status
      where the item gives them and is otherwise as it was, but for the time. */
  lemma ImportedUpdate(rows: Rows, registry: string, jobs: seq<Job>, now: Instant, i: Id, k: nat)
    requires Unique(rows) && FreshIds(rows, jobs) && DistinctItems(jobs)
    requires i in rows && k < |jobs| && rows[i].registry == registry && rows[i].externalId == jobs[k].item.externalId
    requires rows[i].name.Some?
    ensures i in ImportAll(rows, registry, jobs, now)
    ensures var l, item, r := rows[i], jobs[k].item, ImportAll(rows, registry, jobs, now)[i];
      && r.name == Some(IfGiven(item.name, l.name.value)) && r.status == IfGiven(item.status, l.status)
      && (if item.url == None then r.url == l.url else r.url == item.url)
      && r.registry == l.registry && r.externalId == l.externalId && r.others == l.others && r.isNew == l.isNew && r.updatedAt == now
  {
    BatchUpdates(rows, registry, jobs, now, i, k);
  }

  /** And a new key has a row of its own: named after its id when no name is given, of
      unknown status when no status is. */
  lemma ImportedCreation(rows: Rows, registry: string, jobs: seq<Job>, now: Instant, k: nat)
    requires Unique(rows) && FreshIds(rows, jobs) && DistinctItems(jobs) && k < |jobs|
    requires forall i :: i in rows ==> !(rows[i].registry == registry && rows[i].externalId == jobs[k].item.externalId)
    ensures jobs[k].newId in ImportAll(rows, registry, jobs, now)
    ensures var item, r := jobs[k].item, ImportAll(rows, registry, jobs, now)[jobs[k].newId];
      && r.registry == registry && r.externalId == item.externalId && r.url == item.url && r.others == map[]
      && r.isNew && r.updatedAt == now
      && r.name == Some(if item.name == None || item.name == Some("") then item.externalId else item.name.value)
      && r.status == (if item.status == None || item.status == Some("") then "unknown" else item.status.value)
  {
    BatchCreates(rows, registry, jobs, now, k);
  }
}
