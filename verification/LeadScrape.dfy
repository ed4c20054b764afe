/** The registry scrape: for each source existing leads are looked up once, new
    ones are added without being remembered, and one commit decides for all. */
module LeadScrape {
  import opened Prelude
  import opened LeadImport

  /** What a record gives for a field: no such key, a null, or a text. */
  datatype Given = Absent | Null | Text(text: string)

  /** One record that the scraper of `registry` returned. `others` are the texts it
      gives for the further columns, where a null is like a missing key; `legible`
      says that its dates parse and that the scorer takes its fields. */
  datatype Raw = Raw(
    registry: string, externalId: Given, name: Given, url: Given, status: Given,
    others: map<Column, string>, legible: bool, newId: Id)

  function TextOr(g: Given, otherwise: Option<string>): Option<string> {
    if g.Text? then Some(g.text) else otherwise
  }

  /** A stored lead keeps what the record does not give, or gives as null. */
  function Rescraped(l: Lead, raw: Raw, now: Instant): Lead {
    l.(name := TextOr(raw.name, l.name),
       url := TextOr(raw.url, l.url),
       status := if raw.status.Text? then raw.status.text else l.status,
       others := l.others + raw.others,
       updatedAt := now)
  }

  /** A new lead: a missing name is empty, a null one stays null; a null status is
      left to the column, whose default is that of a missing one. */
  function Scraped(raw: Raw, now: Instant): Lead
    requires raw.externalId.Text?
  {
    Lead(raw.registry, raw.externalId.text, if raw.name.Absent? then Some("") else TextOr(raw.name, None),
         TextOr(raw.url, None), if raw.status.Text? then raw.status.text else "unknown", raw.others, true, now)
  }

  /** The record names a lead that was stored before the scrape. */
  ghost predicate Known(rows: Rows, raw: Raw) {
    raw.externalId.Text? && Present(rows, raw.registry, raw.externalId.text)
  }

  ghost predicate FreshRecords(rows: Rows, raws: seq<Raw>) {
    (forall k :: 0 <= k < |raws| ==> raws[k].newId !in rows)
    && forall j, k :: 0 <= j < k < |raws| ==> raws[j].newId != raws[k].newId
  }

  predicate SameKey(q: Raw, r: Raw) { q.registry == r.registry && q.externalId == r.externalId }

  /** No key that is new to the table occurs twice among the records. */
  ghost predicate NoNewRepeats(rows: Rows, raws: seq<Raw>) {
    forall j, k :: 0 <= j < k < |raws| && SameKey(raws[j], raws[k]) ==> Known(rows, raws[k])
  }

  /** The record has an id and can be read. A missing id raises where the lead is
      created, an illegible field where it is read, and a null id goes on to the
      commit, which its column refuses; a session with such a record never commits. */
  predicate Usable(r: Raw) { r.externalId.Text? && r.legible }

  ghost predicate AllUsable(raws: seq<Raw>) { forall r :: r in raws ==> Usable(r) }

  predicate Names(raw: Raw, l: Lead) { raw.externalId.Text? && HasKey(l, raw.registry, raw.externalId.text) }

  /** A stored lead after the records that name it, in order. */
  function Rewritten(l: Lead, raws: seq<Raw>, now: Instant): (r: Lead)
    ensures HasKey(r, l.registry, l.externalId)
  {
    if raws == [] then l
    else
      var before, raw := Rewritten(l, raws[..|raws| - 1], now), raws[|raws| - 1];
      if Names(raw, l) then Rescraped(before, raw, now) else before
  }

  /** The records that are new to the table. */
  ghost function NewRecords(rows: Rows, raws: seq<Raw>): nat {
    if raws == [] then 0
    else NewRecords(rows, raws[..|raws| - 1]) + (if Known(rows, raws[|raws| - 1]) then 0 else 1)
  }

  ghost predicate StoredRow(pending: Rows, rows: Rows, raws: seq<Raw>, now: Instant, i: Id)
    requires i in rows
  {
    i in pending && pending[i] == Rewritten(rows[i], raws, now)
  }

  ghost predicate StagedRecord(pending: Rows, rows: Rows, now: Instant, r: Raw) {
    Usable(r) && (Known(rows, r) || (r.newId in pending && pending[r.newId] == Scraped(r, now)))
  }

  ghost predicate AddedBy(rows: Rows, raws: seq<Raw>, i: Id) {
    exists r :: r in raws && r.newId == i && !Known(rows, r)
  }

  /** The session before its commit: every stored row as its records rewrite it,
      and one added row for each record that was new to the table. */
  ghost predicate Staged(pending: Rows, rows: Rows, raws: seq<Raw>, now: Instant) {
    && (forall i :: i in rows ==> StoredRow(pending, rows, raws, now, i))
    && (forall r :: r in raws ==> StagedRecord(pending, rows, now, r))
    && (forall i :: i in pending && i !in rows ==> AddedBy(rows, raws, i))
  }

  // ---- when the one commit succeeds ----

  /** Two records with one new key are staged under one key. */
  lemma RepeatBreaksUnique(pending: Rows, rows: Rows, raws: seq<Raw>, now: Instant, j: nat, k: nat)
    requires FreshRecords(rows, raws) && Staged(pending, rows, raws, now)
    requires j < k < |raws| && SameKey(raws[j], raws[k]) && !Known(rows, raws[k])
    ensures !Unique(pending)
  {
    assert raws[j] in raws && raws[k] in raws;
    var a, b := raws[j].newId, raws[k].newId;
    assert StagedRecord(pending, rows, now, raws[j]) && StagedRecord(pending, rows, now, raws[k]);
    assert HasKey(pending[a], pending[b].registry, pending[b].externalId);
  }

  /** The key of an added row is no stored row's. */
  lemma AddedKeyIsNew(pending: Rows, rows: Rows, raws: seq<Raw>, now: Instant, stored: Id, added: Id)
    requires Staged(pending, rows, raws, now)
    requires stored in rows && added in pending && added !in rows
    ensures stored in pending && !HasKey(pending[stored], pending[added].registry, pending[added].externalId)
  {
    assert AddedBy(rows, raws, added);
    var r :| r in raws && r.newId == added && !Known(rows, r);
    assert StoredRow(pending, rows, raws, now, stored) && StagedRecord(pending, rows, now, r);
    assert !HasKey(rows[stored], r.registry, r.externalId.text);
  }

  lemma SameKeySameRow(pending: Rows, rows: Rows, raws: seq<Raw>, now: Instant, i: Id, j: Id)
    requires Unique(rows) && Staged(pending, rows, raws, now) && NoNewRepeats(rows, raws)
    requires i in pending && j in pending && HasKey(pending[i], pending[j].registry, pending[j].externalId)
    ensures i == j
  {
    if i in rows && j in rows {
      assert StoredRow(pending, rows, raws, now, i) && StoredRow(pending, rows, raws, now, j);
      assert HasKey(rows[i], rows[j].registry, rows[j].externalId);
    } else if i in rows {
      AddedKeyIsNew(pending, rows, raws, now, i, j);
      assert false;
    } else if j in rows {
      AddedKeyIsNew(pending, rows, raws, now, j, i);
      assert false;
    } else {
      assert AddedBy(rows, raws, i) && AddedBy(rows, raws, j);
      var q :| q in raws && q.newId == i && !Known(rows, q);
      var r :| r in raws && r.newId == j && !Known(rows, r);
      var k :| 0 <= k < |raws| && raws[k] == q;
      var m :| 0 <= m < |raws| && raws[m] == r;
      assert StagedRecord(pending, rows, now, q) && StagedRecord(pending, rows, now, r);
      assert SameKey(raws[k], raws[m]) && SameKey(raws[m], raws[k]);
      assert k == m;
    }
  }

  /** The one commit succeeds exactly when no new key is repeated. */
  lemma UniqueIffNoNewRepeats(pending: Rows, rows: Rows, raws: seq<Raw>, now: Instant)
    requires Unique(rows) && FreshRecords(rows, raws) && Staged(pending, rows, raws, now)
    ensures Unique(pending) <==> NoNewRepeats(rows, raws)
  {
    if !NoNewRepeats(rows, raws) {
      var j, k :| 0 <= j < k < |raws| && SameKey(raws[j], raws[k]) && !Known(rows, raws[k]);
      RepeatBreaksUnique(pending, rows, raws, now, j, k);
    } else {
      forall i, j | i in pending && j in pending && HasKey(pending[i], pending[j].registry, pending[j].externalId)
        ensures i == j
      {
        SameKeySameRow(pending, rows, raws, now, i, j);
      }
    }
  }

  /** The columns take what the records make of the rows: each stored lead as they
      leave it in the end, and each new one. */
  ghost predicate RecordsStorable(rows: Rows, raws: seq<Raw>, now: Instant) {
    && (forall i :: i in rows ==> Storable(Rewritten(rows[i], raws, now)))
    && (forall r :: r in raws && Usable(r) && !Known(rows, r) ==> Storable(Scraped(r, now)))
  }

  lemma StorableIffRecords(pending: Rows, rows: Rows, raws: seq<Raw>, now: Instant)
    requires Staged(pending, rows, raws, now)
    ensures (forall i :: i in pending ==> Storable(pending[i])) <==> RecordsStorable(rows, raws, now)
  {
    forall i | i in pending
      ensures i in rows ==> pending[i] == Rewritten(rows[i], raws, now)
      ensures i !in rows ==> exists r :: r in raws && Usable(r) && !Known(rows, r) && pending[i] == Scraped(r, now)
    {
      if i in rows {
        assert StoredRow(pending, rows, raws, now, i);
      } else {
        assert AddedBy(rows, raws, i);
        var r :| r in raws && r.newId == i && !Known(rows, r);
        assert StagedRecord(pending, rows, now, r);
      }
    }
    forall i | i in rows
      ensures i in pending && pending[i] == Rewritten(rows[i], raws, now)
    {
      assert StoredRow(pending, rows, raws, now, i);
    }
    forall r | r in raws && Usable(r) && !Known(rows, r)
      ensures r.newId in pending && pending[r.newId] == Scraped(r, now)
    {
      assert StagedRecord(pending, rows, now, r);
    }
  }

  /** The records that a commit takes. */
  ghost predicate Committable(rows: Rows, raws: seq<Raw>, now: Instant) {
    AllUsable(raws) && NoNewRepeats(rows, raws) && RecordsStorable(rows, raws, now)
  }

  lemma SoundIffCommittable(pending: Rows, rows: Rows, raws: seq<Raw>, now: Instant)
    requires Unique(rows) && FreshRecords(rows, raws) && Staged(pending, rows, raws, now)
    ensures Sound(pending) <==> Committable(rows, raws, now)
  {
    UniqueIffNoNewRepeats(pending, rows, raws, now);
    StorableIffRecords(pending, rows, raws, now);
    assert forall r :: r in raws ==> StagedRecord(pending, rows, now, r);
  }

  // ---- staging one record ----

  lemma RewrittenSnoc(l: Lead, raws: seq<Raw>, raw: Raw, now: Instant)
    ensures Rewritten(l, raws + [raw], now)
         == if Names(raw, l) then Rescraped(Rewritten(l, raws, now), raw, now) else Rewritten(l, raws, now)
  {
    assert (raws + [raw])[..|raws|] == raws;
  }

  lemma NewRecordsSnoc(rows: Rows, raws: seq<Raw>, raw: Raw)
    ensures NewRecords(rows, raws + [raw]) == NewRecords(rows, raws) + (if Known(rows, raw) then 0 else 1)
  {
    assert (raws + [raw])[..|raws|] == raws;
  }

  /** One more record, already stored: its row is rewritten under the same key. */
  lemma StagedUpdate(pending: Rows, rows: Rows, raws: seq<Raw>, raw: Raw, id: Id, now: Instant)
    requires Unique(rows) && Staged(pending, rows, raws, now)
    requires id in rows && Names(raw, rows[id]) && Usable(raw)
    ensures id in pending && Staged(pending[id := Rescraped(pending[id], raw, now)], rows, raws + [raw], now)
  {
    assert StoredRow(pending, rows, raws, now, id);
    var next := pending[id := Rescraped(pending[id], raw, now)];
    forall i | i in rows
      ensures StoredRow(next, rows, raws + [raw], now, i)
    {
      assert StoredRow(pending, rows, raws, now, i);
      RewrittenSnoc(rows[i], raws, raw, now);
      assert Names(raw, rows[i]) ==> HasKey(rows[i], rows[id].registry, rows[id].externalId);
    }
    forall r | r in raws + [raw]
      ensures StagedRecord(next, rows, now, r)
    {
      if r in raws {
        assert StagedRecord(pending, rows, now, r);
        FreshStays(pending, rows, raws, now, r, id);
      }
    }
    forall i | i in next && i !in rows
      ensures AddedBy(rows, raws + [raw], i)
    {
      assert AddedBy(rows, raws, i);
    }
  }

  /** Rewriting a stored row leaves the rows staged for new records alone: their
      ids are not stored ids. */
  lemma FreshStays(pending: Rows, rows: Rows, raws: seq<Raw>, now: Instant, r: Raw, id: Id)
    requires Staged(pending, rows, raws, now) && r in raws && id in rows
    ensures !Known(rows, r) ==> r.newId != id
  {
    assert StagedRecord(pending, rows, now, r) && StoredRow(pending, rows, raws, now, id);
    assert !Known(rows, r) ==> !HasKey(rows[id], r.registry, r.externalId.text);
  }

  /** One more record, new to the table: its row is added. */
  lemma StagedAdd(pending: Rows, rows: Rows, raws: seq<Raw>, raw: Raw, now: Instant)
    requires Staged(pending, rows, raws, now) && Usable(raw) && !Known(rows, raw)
    requires raw.newId !in rows && forall r :: r in raws ==> r.newId != raw.newId
    ensures Staged(pending[raw.newId := Scraped(raw, now)], rows, raws + [raw], now)
  {
    var next := pending[raw.newId := Scraped(raw, now)];
    forall i | i in rows
      ensures StoredRow(next, rows, raws + [raw], now, i)
    {
      assert StoredRow(pending, rows, raws, now, i);
      RewrittenSnoc(rows[i], raws, raw, now);
      assert !HasKey(rows[i], raw.registry, raw.externalId.text);
    }
    forall r | r in raws + [raw]
      ensures StagedRecord(next, rows, now, r)
    {
      if r in raws {
        assert StagedRecord(pending, rows, now, r);
      }
    }
    forall i | i in next && i !in rows
      ensures AddedBy(rows, raws + [raw], i)
    {
      if i == raw.newId {
        assert raw in raws + [raw];
      } else {
        assert AddedBy(rows, raws, i);
      }
    }
  }

  // ---- the handler ----

  /** What the scraper of one source returned. */
  datatype Batch = Batch(source: string, records: seq<Raw>)

  ghost predicate FromSource(b: Batch) { forall r :: r in b.records ==> r.registry == b.source }

  ghost predicate FromSources(batches: seq<Batch>) { forall b :: b in batches ==> FromSource(b) }

  /** The records of all sources, in the order the handler reads them. */
  function AllRecords(batches: seq<Batch>): seq<Raw> {
    if batches == [] then [] else AllRecords(batches[..|batches| - 1]) + batches[|batches| - 1].records
  }

  lemma {:induction false} RecordsPrefix(batches: seq<Batch>, n: nat)
    requires n < |batches|
    ensures AllRecords(batches[..n + 1]) == AllRecords(batches[..n]) + batches[n].records
    ensures AllRecords(batches[..n + 1]) <= AllRecords(batches)
    decreases |batches|
  {
    assert batches[..n + 1][..n] == batches[..n];
    if n == |batches| - 1 {
      assert batches[..n + 1] == batches;
    } else {
      var rest := batches[..|batches| - 1];
      RecordsPrefix(rest, n);
      assert rest[..n + 1] == batches[..n + 1];
    }
  }

  lemma PrefixMembers(before: seq<Raw>, raws: seq<Raw>, whole: seq<Raw>)
    requires before + raws <= whole
    ensures forall r :: r in raws ==> r in whole
  {
    forall r | r in raws
      ensures r in whole
    {
      var k :| 0 <= k < |raws| && raws[k] == r;
      assert whole[|before| + k] == (before + raws)[|before| + k] == r;
    }
  }

  /** Any exception answers the request alike. */
  datatype Outcome = Failed | Committed(created: nat, updated: nat)

  function IdsOf(raws: seq<Raw>): set<string> {
    set k | 0 <= k < |raws| && raws[k].externalId.Text? :: raws[k].externalId.text
  }

  /** The next record of a source: its row id is fresh, and its id is looked up. */
  lemma NextRecord(rows: Rows, before: seq<Raw>, raws: seq<Raw>, k: nat, whole: seq<Raw>)
    requires k < |raws| && before + raws <= whole && FreshRecords(rows, whole)
    ensures before + raws[..k + 1] == before + raws[..k] + [raws[k]]
    ensures raws[k].newId !in rows && forall r :: r in before + raws[..k] ==> r.newId != raws[k].newId
    ensures raws[k].externalId.Text? ==> raws[k].externalId.text in IdsOf(raws)
  {
    var seen, n := before + raws[..k], |before| + k;
    assert whole[n] == (before + raws)[n] == raws[k];
    forall r | r in seen
      ensures r.newId != raws[k].newId
    {
      var j :| 0 <= j < n && seen[j] == r;
      assert whole[j] == (before + raws)[j] == r;
    }
  }

  /** Where the handler is after some records: the session, and its two counters. */
  ghost predicate Progress(pending: Rows, rows: Rows, seen: seq<Raw>, now: Instant, created: nat, updated: nat) {
    Staged(pending, rows, seen, now) && created == NewRecords(rows, seen) && created + updated == |seen|
  }

  /** The loop over one source may start: its leads are looked up, and its records
      follow the earlier ones among all of the scrape. */
  ghost predicate Ready(rows: Rows, existing: map<string, Id>, batch: Batch, before: seq<Raw>, whole: seq<Raw>) {
    && FromSource(batch) && before + batch.records <= whole
    && Unique(rows) && FreshRecords(rows, whole) && Agrees(existing, rows, batch.source, IdsOf(batch.records))
  }

  /** One record: its stored lead is rewritten, or a lead is added. */
  method StageOne(pending: Rows, rows: Rows, existing: map<string, Id>, batch: Batch, k: nat, now: Instant,
                  created: nat, updated: nat, ghost before: seq<Raw>, ghost whole: seq<Raw>)
    returns (next: Rows, created': nat, updated': nat, ok: bool)
    requires k < |batch.records| && Ready(rows, existing, batch, before, whole)
    requires Progress(pending, rows, before + batch.records[..k], now, created, updated)
    ensures ok <==> Usable(batch.records[k])
    ensures ok ==> Progress(next, rows, before + batch.records[..k + 1], now, created', updated')
  {
    var raw := batch.records[k];
    next, created', updated', ok := pending, created, updated, Usable(raw);
    if !ok {
      return;
    }
    ghost var seen := before + batch.records[..k];
    assert raw in batch.records;
    NextRecord(rows, before, batch.records, k, whole);
    NewRecordsSnoc(rows, seen, raw);
    if raw.externalId.text !in existing {
      StagedAdd(pending, rows, seen, raw, now);
      next := pending[raw.newId := Scraped(raw, now)];
      created' := created + 1;
    } else {
      var id := existing[raw.externalId.text];
      StagedUpdate(pending, rows, seen, raw, id, now);
      next := pending[id := Rescraped(pending[id], raw, now)];
      updated' := updated + 1;
    }
  }

  lemma UnusableFound(raws: seq<Raw>, k: nat)
    requires k < |raws| && !Usable(raws[k])
    ensures !AllUsable(raws)
  {
    assert raws[k] in raws;
  }

  /** The upsert loop of one source. Unlike the bulk import it neither refuses
      repeats nor remembers the leads it adds. */
  method StageSource(pending0: Rows, rows: Rows, existing: map<string, Id>, batch: Batch, now: Instant,
                     created0: nat, updated0: nat, ghost before: seq<Raw>, ghost whole: seq<Raw>)
    returns (pending: Rows, created: nat, updated: nat, ok: bool)
    requires Ready(rows, existing, batch, before, whole)
    requires Progress(pending0, rows, before, now, created0, updated0)
    ensures !ok ==> !AllUsable(batch.records)
    ensures ok ==> Progress(pending, rows, before + batch.records, now, created, updated)
  {
    var n := |batch.records|;
    pending, created, updated, ok := pending0, created0, updated0, true;
    var k := 0;
    assert before + batch.records[..0] == before && batch.records[..n] == batch.records;
    while k < n && ok
      invariant 0 <= k <= n
      invariant ok ==> Progress(pending, rows, before + batch.records[..k], now, created, updated)
      invariant !ok ==> k < n && !Usable(batch.records[k])
      decreases n - k, ok
    {
      pending, created, updated, ok := StageOne(pending, rows, existing, batch, k, now, created, updated, before, whole);
      if ok {
        k := k + 1;
      }
    }
    if !ok {
      UnusableFound(batch.records, k);
    }
  }

  /** A look-up and a loop for each source. The look-ups see the stored table,
      since the session does not flush by itself. */
  method StageSources(store: LeadStore, batches: seq<Batch>, now: Instant)
    returns (pending: Rows, created: nat, updated: nat, ok: bool)
    requires FromSources(batches)
    requires Unique(store.rows) && FreshRecords(store.rows, AllRecords(batches))
    ensures !ok ==> !AllUsable(AllRecords(batches))
    ensures ok ==> Progress(pending, store.rows, AllRecords(batches), now, created, updated)
  {
    var rows := store.rows;
    ghost var whole := AllRecords(batches);
    pending, created, updated, ok := rows, 0, 0, true;
    var i := 0;
    while i < |batches| && ok
      invariant 0 <= i <= |batches|
      invariant ok ==> Progress(pending, rows, AllRecords(batches[..i]), now, created, updated)
      invariant !ok ==> !AllUsable(whole)
      decreases |batches| - i, ok
    {
      RecordsPrefix(batches, i);
      var existing := store.Load(batches[i].source, IdsOf(batches[i].records));
      pending, created, updated, ok :=
        StageSource(pending, rows, existing, batches[i], now, created, updated, AllRecords(batches[..i]), whole);
      if !ok {
        PrefixMembers(AllRecords(batches[..i]), batches[i].records, whole);
      }
      i := i + 1;
    }
    assert batches[..|batches|] == batches;
  }

  /** The handler: staging, then one commit, whose flush writes all rows. */
  method ScrapeAll(store: LeadStore, batches: seq<Batch>, now: Instant, outage: bool) returns (outcome: Outcome)
    requires FromSources(batches)
    requires store.Clean() && FreshRecords(store.rows, AllRecords(batches))
    modifies store
    ensures store.Clean()
    ensures outcome.Committed? <==> Committable(old(store.rows), AllRecords(batches), now) && !outage
    ensures !outcome.Committed? ==> store.rows == old(store.rows)
    ensures outcome.Committed? ==>
      Progress(store.rows, old(store.rows), AllRecords(batches), now, outcome.created, outcome.updated)
  {
    var pending, created, updated, ok := StageSources(store, batches, now);
    if !ok {
      return Failed;
    }
    SoundIffCommittable(pending, store.rows, AllRecords(batches), now);
    StagedUsable(pending, store.rows, AllRecords(batches), now);
    ok := store.Flush(pending, outage);
    ok := store.Commit(outage);
    return if ok then Committed(created, updated) else Failed;
  }

  lemma StagedUsable(pending: Rows, rows: Rows, raws: seq<Raw>, now: Instant)
    requires Staged(pending, rows, raws, now)
    ensures AllUsable(raws)
  {
    assert forall r :: r in raws ==> StagedRecord(pending, rows, now, r);
  }

  // ---- one commit for several sources ----

  lemma RepeatsAppend(rows: Rows, a: seq<Raw>, b: seq<Raw>)
    requires RegistriesDiffer(a, b)
    ensures NoNewRepeats(rows, a + b) <==> NoNewRepeats(rows, a) && NoNewRepeats(rows, b)
  {
    var ab := a + b;
    if NoNewRepeats(rows, ab) {
      forall j, k | 0 <= j < k < |a| && SameKey(a[j], a[k])
        ensures Known(rows, a[k])
      {
        assert ab[j] == a[j] && ab[k] == a[k];
      }
      forall j, k | 0 <= j < k < |b| && SameKey(b[j], b[k])
        ensures Known(rows, b[k])
      {
        assert ab[|a| + j] == b[j] && ab[|a| + k] == b[k];
      }
    }
    if NoNewRepeats(rows, a) && NoNewRepeats(rows, b) {
      forall j, k | 0 <= j < k < |ab| && SameKey(ab[j], ab[k])
        ensures Known(rows, ab[k])
      {
        if k < |a| {
          assert SameKey(a[j], a[k]);
        } else if |a| <= j {
          assert SameKey(b[j - |a|], b[k - |a|]);
        } else {
          assert false;
        }
      }
    }
  }

  lemma {:induction false} RewrittenAppend(l: Lead, a: seq<Raw>, b: seq<Raw>, now: Instant)
    ensures Rewritten(l, a + b, now) == Rewritten(Rewritten(l, a, now), b, now)
  {
    if b == [] {
      assert a + b == a;
    } else {
      assert (a + b)[..|a + b| - 1] == a + b[..|b| - 1];
      RewrittenAppend(l, a, b[..|b| - 1], now);
    }
  }

  lemma {:induction false} RewrittenByNone(l: Lead, raws: seq<Raw>, now: Instant)
    requires forall r :: r in raws ==> r.registry != l.registry
    ensures Rewritten(l, raws, now) == l
  {
    if raws != [] {
      assert raws[|raws| - 1] in raws;
      RewrittenByNone(l, raws[..|raws| - 1], now);
    }
  }

  ghost predicate RegistriesDiffer(a: seq<Raw>, b: seq<Raw>) {
    forall q, r :: q in a && r in b ==> q.registry != r.registry
  }

  /** Each stored lead is rewritten by the records of one of the two only. */
  lemma RewrittenByOne(l: Lead, a: seq<Raw>, b: seq<Raw>, now: Instant)
    requires RegistriesDiffer(a, b)
    ensures (Rewritten(l, a, now) == l && Rewritten(l, a + b, now) == Rewritten(l, b, now))
         || (Rewritten(l, b, now) == l && Rewritten(l, a + b, now) == Rewritten(l, a, now))
  {
    RewrittenAppend(l, a, b, now);
    if forall r :: r in a ==> r.registry != l.registry {
      RewrittenByNone(l, a, now);
    } else {
      RewrittenByNone(l, b, now);
      RewrittenByNone(Rewritten(l, a, now), b, now);
    }
  }

  lemma StorableAppend(rows: Rows, a: seq<Raw>, b: seq<Raw>, now: Instant)
    requires Sound(rows) && RegistriesDiffer(a, b)
    ensures RecordsStorable(rows, a + b, now) <==> RecordsStorable(rows, a, now) && RecordsStorable(rows, b, now)
  {
    forall i | i in rows
      ensures Storable(Rewritten(rows[i], a + b, now)) <==>
        Storable(Rewritten(rows[i], a, now)) && Storable(Rewritten(rows[i], b, now))
    {
      RewrittenByOne(rows[i], a, b, now);
    }
    assert forall r :: r in a + b <==> r in a || r in b;
  }

  lemma CommittableAppend(rows: Rows, a: seq<Raw>, b: seq<Raw>, now: Instant)
    requires Sound(rows) && RegistriesDiffer(a, b)
    ensures Committable(rows, a + b, now) <==> Committable(rows, a, now) && Committable(rows, b, now)
  {
    UsableAppend(a, b);
    RepeatsAppend(rows, a, b);
    StorableAppend(rows, a, b, now);
  }

  ghost predicate SourcesDistinct(batches: seq<Batch>) {
    forall i, j :: 0 <= i < j < |batches| ==> batches[i].source != batches[j].source
  }

  lemma {:induction false} RecordsFrom(batches: seq<Batch>, r: Raw)
    requires FromSources(batches) && r in AllRecords(batches)
    ensures exists i :: 0 <= i < |batches| && batches[i].source == r.registry
  {
    if batches != [] {
      var n := |batches| - 1;
      if r in batches[n].records {
        assert FromSource(batches[n]);
        assert batches[n].source == r.registry;
      } else {
        RecordsFrom(batches[..n], r);
        var i :| 0 <= i < n && batches[..n][i].source == r.registry;
        assert batches[i].source == r.registry;
      }
    }
  }

  /** Main result for several sources: the scrape of all of them commits exactly
      when each of them would commit alone, so one source that repeats a new lead,
      leaves out an id or has a bad status loses the leads of every other source. */
  lemma {:induction false} SourcesStandTogether(rows: Rows, batches: seq<Batch>, now: Instant)
    requires Sound(rows) && FromSources(batches) && SourcesDistinct(batches)
    ensures Committable(rows, AllRecords(batches), now) <==>
      forall i :: 0 <= i < |batches| ==> Committable(rows, batches[i].records, now)
  {
    if batches == [] {
      assert Committable(rows, [], now);
    } else {
      var n := |batches| - 1;
      SourcesStandTogether(rows, batches[..n], now);
      LastSourceDiffers(batches);
      CommittableAppend(rows, AllRecords(batches[..n]), batches[n].records, now);
      AllSnoc(rows, batches, n, now);
    }
  }

  lemma AllSnoc(rows: Rows, batches: seq<Batch>, n: nat, now: Instant)
    requires n + 1 == |batches|
    ensures (forall i :: 0 <= i < |batches| ==> Committable(rows, batches[i].records, now)) <==>
      (forall i :: 0 <= i < n ==> Committable(rows, batches[..n][i].records, now)) && Committable(rows, batches[n].records, now)
  {
    assert forall i :: 0 <= i < n ==> batches[..n][i] == batches[i];
  }

  lemma LastSourceDiffers(batches: seq<Batch>)
    requires batches != [] && FromSources(batches) && SourcesDistinct(batches)
    ensures RegistriesDiffer(AllRecords(batches[..|batches| - 1]), batches[|batches| - 1].records)
  {
    var rest, last := batches[..|batches| - 1], batches[|batches| - 1];
    forall q, r | q in AllRecords(rest) && r in last.records
      ensures q.registry != r.registry
    {
      RecordsFrom(rest, q);
      assert FromSource(last);
    }
  }

  lemma UsableAppend(a: seq<Raw>, b: seq<Raw>)
    ensures AllUsable(a + b) <==> AllUsable(a) && AllUsable(b)
  {
    assert forall r :: r in a ==> r in a + b;
    assert forall r :: r in b ==> r in a + b;
  }

  /** A record of one new lead, with the rest left out. */
  function Plain(registry: string, key: string, name: Given, newId: Id): Raw {
    Raw(registry, Text(key), name, Absent, Absent, map[], true, newId)
  }

  /** The condition can fail: a source that lists one new lead twice. */
  lemma RepeatedNewIdLosesBatch(registry: string, key: string, now: Instant)
    ensures !Committable(map[], [Plain(registry, key, Absent, 0), Plain(registry, key, Absent, 1)], now)
  {
    var raws := [Plain(registry, key, Absent, 0), Plain(registry, key, Absent, 1)];
    assert SameKey(raws[0], raws[1]) && !Known(map[], raws[1]);
  }

  /** A single record can fail it too, by its name alone: a new lead commits without
      a name but not with a null one, and a stored lead with either. */
  lemma NullNameLosesBatch(rows: Rows, registry: string, key: string, newId: Id, now: Instant)
    requires Sound(rows) && |key| <= 255 && newId !in rows
    ensures Committable(rows, [Plain(registry, key, Absent, newId)], now)
    ensures Committable(rows, [Plain(registry, key, Null, newId)], now) <==> Present(rows, registry, key)
  {
    OneRecordCommits(rows, Plain(registry, key, Absent, newId), now);
    OneRecordCommits(rows, Plain(registry, key, Null, newId), now);
  }

  lemma OneRecordCommits(rows: Rows, raw: Raw, now: Instant)
    requires Sound(rows) && Usable(raw)
    ensures Committable(rows, [raw], now) <==>
      (forall i :: i in rows && Names(raw, rows[i]) ==> Storable(Rescraped(rows[i], raw, now)))
      && (Known(rows, raw) || Storable(Scraped(raw, now)))
  {
    forall i | i in rows
      ensures Rewritten(rows[i], [raw], now) == if Names(raw, rows[i]) then Rescraped(rows[i], raw, now) else rows[i]
    {
      RewrittenSnoc(rows[i], [], raw, now);
      assert [] + [raw] == [raw];
    }
    assert raw in [raw];
  }

  // ---- the rows after a scrape, in the words of the records ----

  /** The record is about the lead. */
  ghost predicate About(r: Raw, l: Lead) { r.registry == l.registry && r.externalId == Text(l.externalId) }

  /** The last record about the lead that gives a text for the field; `Absent` when
      none does. */
  ghost function LastText(raws: seq<Raw>, l: Lead, field: Raw -> Given): Given {
    if raws == [] then Absent
    else
      var last := raws[|raws| - 1];
      if About(last, l) && field(last).Text? then field(last) else LastText(raws[..|raws| - 1], l, field)
  }

  /** Which is what its name says. */
  lemma {:induction false} LastTextMeaning(raws: seq<Raw>, l: Lead, field: Raw -> Given)
    ensures LastText(raws, l, field) == Absent ==> forall k :: 0 <= k < |raws| && About(raws[k], l) ==> !field(raws[k]).Text?
    ensures LastText(raws, l, field) != Absent ==>
      exists k :: 0 <= k < |raws| && About(raws[k], l) && field(raws[k]).Text? && LastText(raws, l, field) == field(raws[k])
                  && forall j :: k < j < |raws| && About(raws[j], l) ==> !field(raws[j]).Text?
  {
    if raws != [] {
      var n := |raws| - 1;
      LastTextMeaning(raws[..n], l, field);
      assert forall k :: 0 <= k < n ==> raws[..n][k] == raws[k];
      if About(raws[n], l) && field(raws[n]).Text? {
        assert LastText(raws, l, field) == field(raws[n]);
      } else if LastText(raws, l, field) != Absent {
        var k :| 0 <= k < n && About(raws[..n][k], l) && field(raws[..n][k]).Text? && LastText(raws[..n], l, field) == field(raws[..n][k])
                 && forall j :: k < j < n && About(raws[..n][j], l) ==> !field(raws[..n][j]).Text?;
        assert About(raws[k], l) && field(raws[k]).Text?;
      }
    }
  }

  /** A further column as a field: a text when the record gives one. */
  ghost function ColumnOf(c: Column): Raw -> Given { (r: Raw) => if c in r.others then Text(r.others[c]) else Absent }

  ghost function NameOf(): Raw -> Given { (r: Raw) => r.name }

  ghost function UrlOf(): Raw -> Given { (r: Raw) => r.url }

  ghost function StatusOf(): Raw -> Given { (r: Raw) => r.status }

  lemma LastTextSnoc(raws: seq<Raw>, last: Raw, l: Lead, field: Raw -> Given)
    ensures LastText(raws + [last], l, field)
         == if About(last, l) && field(last).Text? then field(last) else LastText(raws, l, field)
  {
    assert (raws + [last])[..|raws|] == raws;
  }

  /** A stored lead keeps its key and its flag, and has in each field the text of the
      last record about it that gives one, or else what it had. */
  ghost predicate RewrittenBy(r: Lead, l: Lead, raws: seq<Raw>) {
    var name, url, status := LastText(raws, l, NameOf()), LastText(raws, l, UrlOf()), LastText(raws, l, StatusOf());
    && r.registry == l.registry && r.externalId == l.externalId && r.isNew == l.isNew
    && r.name == (if name.Text? then Some(name.text) else l.name)
    && r.url == (if url.Text? then Some(url.text) else l.url)
    && r.status == (if status.Text? then status.text else l.status)
  }

  ghost predicate ColumnBy(r: Lead, l: Lead, raws: seq<Raw>, c: Column) {
    var text := LastText(raws, l, ColumnOf(c));
    if text.Text? then c in r.others && r.others[c] == text.text
    else (c in r.others <==> c in l.others) && (c in l.others ==> r.others[c] == l.others[c])
  }

  lemma {:induction false} RewrittenMeaning(l: Lead, raws: seq<Raw>, now: Instant)
    ensures RewrittenBy(Rewritten(l, raws, now), l, raws)
  {
    if raws != [] {
      var n := |raws| - 1;
      RewrittenMeaning(l, raws[..n], now);
      OneRewrites(l, raws[..n], raws[n], now);
      assert raws == raws[..n] + [raws[n]];
    }
  }

  lemma OneRewrites(l: Lead, raws: seq<Raw>, raw: Raw, now: Instant)
    requires RewrittenBy(Rewritten(l, raws, now), l, raws)
    ensures RewrittenBy(Rewritten(l, raws + [raw], now), l, raws + [raw])
  {
    RewrittenSnoc(l, raws, raw, now);
    LastTextSnoc(raws, raw, l, NameOf());
    LastTextSnoc(raws, raw, l, UrlOf());
    LastTextSnoc(raws, raw, l, StatusOf());
  }

  lemma {:induction false} ColumnMeaning(l: Lead, raws: seq<Raw>, now: Instant, c: Column)
    ensures ColumnBy(Rewritten(l, raws, now), l, raws, c)
  {
    if raws != [] {
      var n := |raws| - 1;
      ColumnMeaning(l, raws[..n], now, c);
      RewrittenSnoc(l, raws[..n], raws[n], now);
      LastTextSnoc(raws[..n], raws[n], l, ColumnOf(c));
      assert raws == raws[..n] + [raws[n]];
    }
  }

  /** A new lead: an absent name is empty, an absent status or a null one unknown. */
  ghost predicate CreatedFrom(r: Lead, raw: Raw, now: Instant) {
    && r.registry == raw.registry && raw.externalId == Text(r.externalId) && r.isNew && r.updatedAt == now && r.others == raw.others
    && r.name == (match raw.name case Absent => Some("") case Null => None case Text(x) => Some(x))
    && r.url == (match raw.url case Absent => None case Null => None case Text(x) => Some(x))
    && r.status == (match raw.status case Absent => "unknown" case Null => "unknown" case Text(x) => x)
  }

  /** Main result in the words of the records, for what a committed scrape leaves: every
      stored lead is rewritten field by field, every record that was new has its own
      row, and there is no other row. */
  lemma ScrapedRows(after: Rows, rows: Rows, raws: seq<Raw>, now: Instant)
    requires Staged(after, rows, raws, now)
    ensures forall i :: i in rows ==> i in after && RewrittenBy(after[i], rows[i], raws)
    ensures forall i, c: Column :: i in rows && i in after ==> ColumnBy(after[i], rows[i], raws, c)
    ensures forall r :: r in raws && (forall i :: i in rows ==> !About(r, rows[i])) ==>
      r.newId in after && CreatedFrom(after[r.newId], r, now)
    ensures forall i :: i in after && i !in rows ==> exists r :: r in raws && r.newId == i && forall j :: j in rows ==> !About(r, rows[j])
  {
    forall i | i in rows
      ensures i in after && RewrittenBy(after[i], rows[i], raws)
    {
      assert StoredRow(after, rows, raws, now, i);
      RewrittenMeaning(rows[i], raws, now);
    }
    forall i, c: Column | i in rows && i in after
      ensures ColumnBy(after[i], rows[i], raws, c)
    {
      assert StoredRow(after, rows, raws, now, i);
      ColumnMeaning(rows[i], raws, now, c);
    }
    forall r | r in raws && (forall i :: i in rows ==> !About(r, rows[i]))
      ensures r.newId in after && CreatedFrom(after[r.newId], r, now)
    {
      assert StagedRecord(after, rows, now, r);
      KnownMeaning(rows, r);
    }
    forall i | i in after && i !in rows
      ensures exists r :: r in raws && r.newId == i && forall j :: j in rows ==> !About(r, rows[j])
    {
      assert AddedBy(rows, raws, i);
      var r :| r in raws && r.newId == i && !Known(rows, r);
      KnownMeaning(rows, r);
    }
  }

  lemma KnownMeaning(rows: Rows, r: Raw)
    ensures Known(rows, r) <==> exists i :: i in rows && About(r, rows[i])
  {
    if Known(rows, r) {
      var i :| i in rows && HasKey(rows[i], r.registry, r.externalId.text);
      assert About(r, rows[i]);
    }
    if i :| i in rows && About(r, rows[i]) {
      assert HasKey(rows[i], r.registry, r.externalId.text);
    }
  }

  /** The condition of a commit, in the words of the records: each can be read and has
      a text for an id, none that is new repeats, and the columns take what results. */
  lemma CommittableMeaning(rows: Rows, raws: seq<Raw>, now: Instant)
    ensures Committable(rows, raws, now) <==>
      && (forall r :: r in raws ==> r.legible && exists x :: r.externalId == Text(x))
      && (forall j, k :: 0 <= j < k < |raws| && raws[j].registry == raws[k].registry && raws[j].externalId == raws[k].externalId ==>
            exists i :: i in rows && About(raws[k], rows[i]))
      && (forall i :: i in rows ==> Storable(Rewritten(rows[i], raws, now)))
      && (forall r :: r in raws && r.legible && r.externalId.Text? && (forall i :: i in rows ==> !About(r, rows[i])) ==>
            Storable(Scraped(r, now)))
  {
    forall r
      ensures Known(rows, r) <==> exists i :: i in rows && About(r, rows[i])
    {
      KnownMeaning(rows, r);
    }
    forall r: Raw
      ensures r.externalId.Text? <==> exists x :: r.externalId == Text(x)
    {
      if r.externalId.Text? {
        assert r.externalId == Text(r.externalId.text);
      }
    }
  }
}
