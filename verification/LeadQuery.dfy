/** The pending-opportunities query, as SQL evaluates it: an aggregate, a window
    function, two left joins, a filter, an order and a limit. It is proved equal
    to a simple computation for each lead. */
module LeadQuery {
  import opened Prelude

  type LeadId = nat

  datatype ProjectStatus = UnderValidation | UnderVerification | UnderCertification | OtherStatus

  datatype Lead = Lead(id: LeadId, registry: string, status: ProjectStatus, dismissed: bool, stuckScore: real)

  datatype Document = Document(lead: LeadId, fetched: bool)

  datatype Audit = Audit(lead: Option<LeadId>, createdAt: int, readiness: real, verdict: string)

  predicate Pending(l: Lead) { l.status != OtherStatus && !l.dismissed }

  predicate Wanted(l: Lead, registry: Option<string>) {
    Pending(l) && (registry.Some? && registry.value != "" ==> l.registry == registry.value)
  }

  // ---- GROUP BY lead_id ----

  datatype Group = Group(lead: LeadId, count: nat, fetched: nat)

  function AddTo(groups: seq<Group>, d: Document): seq<Group> {
    if groups == [] then [Group(d.lead, 1, if d.fetched then 1 else 0)]
    else if groups[0].lead == d.lead
    then [Group(d.lead, groups[0].count + 1, groups[0].fetched + (if d.fetched then 1 else 0))] + groups[1..]
    else [groups[0]] + AddTo(groups[1..], d)
  }

  function Groups(docs: seq<Document>): seq<Group> {
    if docs == [] then [] else AddTo(Groups(docs[..|docs| - 1]), docs[|docs| - 1])
  }

  function DocumentCount(docs: seq<Document>, lead: LeadId): nat {
    if docs == [] then 0
    else DocumentCount(docs[..|docs| - 1], lead) + (if docs[|docs| - 1].lead == lead then 1 else 0)
  }

  function FetchedCount(docs: seq<Document>, lead: LeadId): nat {
    if docs == [] then 0
    else
      FetchedCount(docs[..|docs| - 1], lead)
      + (if docs[|docs| - 1].lead == lead && docs[|docs| - 1].fetched then 1 else 0)
  }

  /** The groups that a join on the lead's id finds. */
  function GroupsOf(groups: seq<Group>, lead: LeadId): seq<Group> {
    if groups == [] then []
    else (if groups[0].lead == lead then [groups[0]] else []) + GroupsOf(groups[1..], lead)
  }

  /** A lead's group after one more of its documents. */
  function Bump(group: seq<Group>, d: Document): seq<Group> {
    if group == [] then [Group(d.lead, 1, if d.fetched then 1 else 0)]
    else [Group(d.lead, group[0].count + 1, group[0].fetched + (if d.fetched then 1 else 0))]
  }

  lemma GroupsOfCons(g: Group, groups: seq<Group>, lead: LeadId)
    ensures GroupsOf([g] + groups, lead) == (if g.lead == lead then [g] else []) + GroupsOf(groups, lead)
  {
    assert ([g] + groups)[1..] == groups;
  }

  lemma {:induction false} AddToGroups(groups: seq<Group>, d: Document, lead: LeadId)
    requires |GroupsOf(groups, d.lead)| <= 1
    ensures GroupsOf(AddTo(groups, d), lead) == if d.lead == lead then Bump(GroupsOf(groups, lead), d) else GroupsOf(groups, lead)
  {
    if groups == [] {
      GroupsOfCons(AddTo(groups, d)[0], [], lead);
      assert AddTo(groups, d) == [AddTo(groups, d)[0]] + [];
    } else {
      var g, rest := groups[0], groups[1..];
      assert groups == [g] + rest;
      GroupsOfCons(g, rest, lead);
      GroupsOfCons(g, rest, d.lead);
      if g.lead == d.lead {
        assert GroupsOf(rest, d.lead) == [];
        GroupsOfCons(AddTo(groups, d)[0], rest, lead);
      } else {
        AddToGroups(rest, d, lead);
        GroupsOfCons(g, AddTo(rest, d), lead);
      }
    }
  }

  /** The one group that a lead should have, or none. */
  function GroupFor(docs: seq<Document>, lead: LeadId): seq<Group> {
    if DocumentCount(docs, lead) == 0 then [] else [Group(lead, DocumentCount(docs, lead), FetchedCount(docs, lead))]
  }

  lemma {:induction false} FetchedWithinCount(docs: seq<Document>, lead: LeadId)
    ensures FetchedCount(docs, lead) <= DocumentCount(docs, lead)
  {
    if docs != [] {
      FetchedWithinCount(docs[..|docs| - 1], lead);
    }
  }

  /** A lead with documents has one group, with its own counts; one without has none. */
  lemma {:induction false} GroupsMeaning(docs: seq<Document>, lead: LeadId)
    ensures GroupsOf(Groups(docs), lead) == GroupFor(docs, lead)
  {
    if docs != [] {
      var rest, d := docs[..|docs| - 1], docs[|docs| - 1];
      GroupsMeaning(rest, lead);
      GroupsMeaning(rest, d.lead);
      AddToGroups(Groups(rest), d, lead);
      FetchedWithinCount(rest, lead);
    }
  }

  // ---- ROW_NUMBER() OVER (PARTITION BY lead_id ORDER BY created_at DESC) ----

  /** The order in which the window sees the audits: newest first, ties any way. */
  ghost predicate NewestFirst(ranked: seq<Audit>) {
    forall i, j :: 0 <= i < j < |ranked| ==> ranked[i].createdAt >= ranked[j].createdAt
  }

  function InPartition(ranked: seq<Audit>, lead: Option<LeadId>): nat {
    if ranked == [] then 0
    else InPartition(ranked[..|ranked| - 1], lead) + (if ranked[|ranked| - 1].lead == lead then 1 else 0)
  }

  datatype Numbered = Numbered(audit: Audit, rn: nat)

  function Number(ranked: seq<Audit>): seq<Numbered> {
    if ranked == [] then []
    else
      var rest, a := ranked[..|ranked| - 1], ranked[|ranked| - 1];
      Number(rest) + [Numbered(a, InPartition(rest, a.lead) + 1)]
  }

  /** The rows that a join on the lead's id and rn = 1 finds. */
  function LatestOf(rows: seq<Numbered>, lead: LeadId): seq<Audit> {
    if rows == [] then []
    else
      var rest, r := rows[..|rows| - 1], rows[|rows| - 1];
      LatestOf(rest, lead) + (if r.audit.lead == Some(lead) && r.rn == 1 then [r.audit] else [])
  }

  /** The first audit of the lead in the window's order. */
  function First(ranked: seq<Audit>, lead: LeadId): Option<Audit> {
    if ranked == [] then None
    else
      var earlier := First(ranked[..|ranked| - 1], lead);
      if earlier.Some? then earlier
      else if ranked[|ranked| - 1].lead == Some(lead) then Some(ranked[|ranked| - 1])
      else None
  }

  lemma {:induction false} LatestIsFirst(ranked: seq<Audit>, lead: LeadId)
    ensures InPartition(ranked, Some(lead)) == 0 <==> First(ranked, lead).None?
    ensures LatestOf(Number(ranked), lead) == if First(ranked, lead).Some? then [First(ranked, lead).value] else []
  {
    if ranked != [] {
      LatestIsFirst(ranked[..|ranked| - 1], lead);
      var rows := Number(ranked);
      assert rows[..|rows| - 1] == Number(ranked[..|ranked| - 1]);
    }
  }

  /** With the window's order the first audit is the newest one; there is none
      exactly when the lead has no audit. */
  lemma {:induction false} FirstIsNewest(ranked: seq<Audit>, lead: LeadId)
    requires NewestFirst(ranked)
    ensures First(ranked, lead).None? <==> forall a :: a in ranked ==> a.lead != Some(lead)
    ensures First(ranked, lead).Some? ==>
      var newest := First(ranked, lead).value;
      newest in ranked && newest.lead == Some(lead)
      && forall a :: a in ranked && a.lead == Some(lead) ==> a.createdAt <= newest.createdAt
  {
    if ranked != [] {
      var rest, last := ranked[..|ranked| - 1], ranked[|ranked| - 1];
      FirstIsNewest(rest, lead);
      assert forall a :: a in ranked <==> a in rest || a == last;
      assert forall a :: a in rest ==> a.createdAt >= last.createdAt;
    }
  }

  // ---- LEFT JOIN twice, WHERE ----

  datatype Joined = Joined(lead: Lead, group: Option<Group>, audit: Option<Audit>)

  function Attach<T>(matches: seq<T>): seq<Option<T>> {
    if matches == [] then [None] else AllSome(matches)
  }

  function AllSome<T>(xs: seq<T>): seq<Option<T>> {
    if xs == [] then [] else [Some(xs[0])] + AllSome(xs[1..])
  }

  /** All pairs of a lead's matches on the two sides. */
  function Pairs(lead: Lead, groups: seq<Option<Group>>, audits: seq<Option<Audit>>): seq<Joined> {
    if groups == [] then [] else PairsWith(lead, groups[0], audits) + Pairs(lead, groups[1..], audits)
  }

  function PairsWith(lead: Lead, group: Option<Group>, audits: seq<Option<Audit>>): seq<Joined> {
    if audits == [] then [] else [Joined(lead, group, audits[0])] + PairsWith(lead, group, audits[1..])
  }

  function JoinAll(leads: seq<Lead>, groups: seq<Group>, rows: seq<Numbered>): seq<Joined> {
    if leads == [] then []
    else Pairs(leads[0], Attach(GroupsOf(groups, leads[0].id)), Attach(LatestOf(rows, leads[0].id)))
         + JoinAll(leads[1..], groups, rows)
  }

  function Where(rows: seq<Joined>, registry: Option<string>): seq<Joined> {
    if rows == [] then []
    else (if Wanted(rows[0].lead, registry) then [rows[0]] else []) + Where(rows[1..], registry)
  }

  /** SELECT with COALESCE. */
  datatype Opportunity = Opportunity(lead: Lead, documents: nat, fetched: nat, audit: Option<Audit>)

  function Select(rows: seq<Joined>): seq<Opportunity> {
    if rows == [] then []
    else
      var r := rows[0];
      [Opportunity(r.lead, if r.group.Some? then r.group.value.count else 0, if r.group.Some? then r.group.value.fetched else 0, r.audit)]
      + Select(rows[1..])
  }

  function QueryRows(leads: seq<Lead>, docs: seq<Document>, ranked: seq<Audit>, registry: Option<string>): seq<Opportunity> {
    Select(Where(JoinAll(leads, Groups(docs), Number(ranked)), registry))
  }

  // ---- the reference: one pass over the leads ----

  /** What the answer should say about one lead. */
  function Own(l: Lead, docs: seq<Document>, ranked: seq<Audit>): Opportunity {
    Opportunity(l, DocumentCount(docs, l.id), FetchedCount(docs, l.id), First(ranked, l.id))
  }

  function PerLead(leads: seq<Lead>, docs: seq<Document>, ranked: seq<Audit>, registry: Option<string>): seq<Opportunity> {
    if leads == [] then []
    else
      (if Wanted(leads[0], registry) then [Own(leads[0], docs, ranked)] else []) + PerLead(leads[1..], docs, ranked, registry)
  }

  lemma OnePair(lead: Lead, group: Option<Group>, audit: Option<Audit>)
    ensures Pairs(lead, [group], [audit]) == [Joined(lead, group, audit)]
  {
    assert [group][1..] == [] && [audit][1..] == [];
    assert PairsWith(lead, group, [audit]) == [Joined(lead, group, audit)] + PairsWith(lead, group, []);
  }

  lemma AttachOne<T>(x: T)
    ensures Attach([x]) == [Some(x)]
  {
    assert [x][1..] == [];
    assert AllSome([x]) == [Some(x)] + AllSome<T>([]);
  }

  /** The row that a lead joins to. */
  function RowFor(lead: Lead, docs: seq<Document>, ranked: seq<Audit>): Joined {
    Joined(lead, if GroupFor(docs, lead.id) == [] then None else Some(GroupFor(docs, lead.id)[0]), First(ranked, lead.id))
  }

  /** A lead joins to exactly one row. */
  lemma OneRowPerLead(lead: Lead, docs: seq<Document>, ranked: seq<Audit>)
    ensures Pairs(lead, Attach(GroupsOf(Groups(docs), lead.id)), Attach(LatestOf(Number(ranked), lead.id)))
         == [RowFor(lead, docs, ranked)]
  {
    GroupsMeaning(docs, lead.id);
    LatestIsFirst(ranked, lead.id);
    var r := RowFor(lead, docs, ranked);
    if r.group.Some? {
      AttachOne(r.group.value);
    }
    if r.audit.Some? {
      AttachOne(r.audit.value);
    }
    OnePair(lead, r.group, r.audit);
  }

  lemma SelectWhereCons(row: Joined, rest: seq<Joined>, registry: Option<string>)
    ensures Select(Where([row] + rest, registry))
         == (if Wanted(row.lead, registry) then Select([row]) else []) + Select(Where(rest, registry))
  {
    assert ([row] + rest)[1..] == rest && [row][1..] == [];
    var kept := Where(rest, registry);
    if Wanted(row.lead, registry) {
      assert ([row] + kept)[1..] == kept;
    } else {
      assert [] + kept == kept;
    }
  }

  lemma SelectRow(lead: Lead, docs: seq<Document>, ranked: seq<Audit>)
    ensures Select([RowFor(lead, docs, ranked)]) == [Own(lead, docs, ranked)]
  {
    FetchedWithinCount(docs, lead.id);
    assert [RowFor(lead, docs, ranked)][1..] == [];
  }

  /** Main result: the query returns, row for row, what the simple pass returns. */
  lemma {:induction false} QueryRefinesPerLead(leads: seq<Lead>, docs: seq<Document>, ranked: seq<Audit>, registry: Option<string>)
    ensures QueryRows(leads, docs, ranked, registry) == PerLead(leads, docs, ranked, registry)
  {
    if leads != [] {
      QueryRefinesPerLead(leads[1..], docs, ranked, registry);
      OneRowPerLead(leads[0], docs, ranked);
      SelectRow(leads[0], docs, ranked);
      SelectWhereCons(RowFor(leads[0], docs, ranked), JoinAll(leads[1..], Groups(docs), Number(ranked)), registry);
    }
  }

  // ---- ORDER BY stuck_score DESC LIMIT n ----

  ghost predicate Descending(rows: seq<Opportunity>) {
    forall i, j :: 0 <= i < j < |rows| ==> rows[i].lead.stuckScore >= rows[j].lead.stuckScore
  }

  /** Some order of the rows by falling score; ties are the database's choice. */
  ghost predicate Orders(rows: seq<Opportunity>, sorted: seq<Opportunity>) {
    multiset(sorted) == multiset(rows) && Descending(sorted)
  }

  function Limit<T>(rows: seq<T>, limit: nat): seq<T> { if |rows| <= limit then rows else rows[..limit] }

  ghost predicate DistinctIds(leads: seq<Lead>) {
    forall i, j :: 0 <= i < j < |leads| ==> leads[i].id != leads[j].id
  }

  /** The simple pass lists exactly the wanted leads, each with its own figures. */
  lemma {:induction false} PerLeadMeaning(leads: seq<Lead>, docs: seq<Document>, ranked: seq<Audit>, registry: Option<string>)
    ensures forall r :: r in PerLead(leads, docs, ranked, registry) <==>
      r.lead in leads && Wanted(r.lead, registry) && r == Own(r.lead, docs, ranked)
  {
    if leads != [] {
      PerLeadMeaning(leads[1..], docs, ranked, registry);
      assert leads == [leads[0]] + leads[1..];
    }
  }

  ghost predicate OncePerLead(rows: seq<Opportunity>) {
    forall i, j :: 0 <= i < j < |rows| ==> rows[i].lead.id != rows[j].lead.id
  }

  lemma {:induction false} PerLeadOnce(leads: seq<Lead>, docs: seq<Document>, ranked: seq<Audit>, registry: Option<string>)
    requires DistinctIds(leads)
    ensures OncePerLead(PerLead(leads, docs, ranked, registry))
  {
    if leads != [] {
      PerLeadOnce(leads[1..], docs, ranked, registry);
      PerLeadMeaning(leads[1..], docs, ranked, registry);
      var rest := PerLead(leads[1..], docs, ranked, registry);
      forall i | 0 <= i < |rest|
        ensures rest[i].lead.id != leads[0].id
      {
        assert rest[i] in rest;
        var k :| 0 <= k < |leads[1..]| && leads[1..][k] == rest[i].lead;
        assert leads[k + 1] == rest[i].lead;
      }
    }
  }

  lemma AtMostOnce(rows: seq<Opportunity>, p: nat)
    requires p < |rows| && OncePerLead(rows)
    ensures multiset(rows)[rows[p]] <= 1
  {
    var x := rows[p];
    forall k | 0 <= k < |rows| && k != p
      ensures rows[k] != x
    {
      assert rows[k].lead.id != x.lead.id;
    }
    assert rows == rows[..p] + [x] + rows[p + 1..];
    assert x !in rows[..p] && x !in rows[p + 1..];
  }

  lemma AtLeastTwice(rows: seq<Opportunity>, i: nat, j: nat)
    requires i < j < |rows| && rows[i] == rows[j]
    ensures multiset(rows)[rows[i]] >= 2
  {
    assert rows == rows[..j] + [rows[j]] + rows[j + 1..];
    assert rows[i] == rows[..j][i] && rows[i] in multiset(rows[..j]);
  }

  /** Reordering rows does not repeat a lead. */
  lemma ReorderKeepsOnce(rows: seq<Opportunity>, sorted: seq<Opportunity>)
    requires OncePerLead(rows) && multiset(sorted) == multiset(rows)
    ensures OncePerLead(sorted)
  {
    forall i, j | 0 <= i < j < |sorted|
      ensures sorted[i].lead.id != sorted[j].lead.id
    {
      if sorted[i].lead.id == sorted[j].lead.id {
        assert sorted[i] in multiset(rows) && sorted[j] in multiset(rows);
        var p :| 0 <= p < |rows| && rows[p] == sorted[i];
        var q :| 0 <= q < |rows| && rows[q] == sorted[j];
        assert p == q;
        AtLeastTwice(sorted, i, j);
        AtMostOnce(rows, p);
        assert false;
      }
    }
  }

  lemma SameMembers(rows: seq<Opportunity>, sorted: seq<Opportunity>, r: Opportunity)
    requires multiset(sorted) == multiset(rows)
    ensures r in sorted <==> r in rows
  {
    assert r in multiset(sorted) <==> r in multiset(rows);
  }

  /** A row that the limit drops is no better than any row that it keeps. */
  lemma DroppedOnlyBehind(sorted: seq<Opportunity>, limit: nat, r: Opportunity)
    requires Descending(sorted) && r in sorted && r !in Limit(sorted, limit)
    ensures |Limit(sorted, limit)| == limit
    ensures forall kept :: kept in Limit(sorted, limit) ==> kept.lead.stuckScore >= r.lead.stuckScore
  {
    var k :| 0 <= k < |sorted| && sorted[k] == r;
    var out := Limit(sorted, limit);
    assert forall i :: 0 <= i < |out| ==> out[i] == sorted[i] && out[i] in out;
  }

  /** Main result for any answer the database may give: each wanted lead at most
      once, with its own counts and its first audit in the window's order, highest
      scores first; a wanted lead is left out only when the limit is full of
      scores at least as high. */
  lemma AnswerMeaning(leads: seq<Lead>, docs: seq<Document>, ranked: seq<Audit>, registry: Option<string>,
                      sorted: seq<Opportunity>, limit: nat)
    requires DistinctIds(leads)
    requires Orders(QueryRows(leads, docs, ranked, registry), sorted)
    ensures |Limit(sorted, limit)| <= limit && OncePerLead(Limit(sorted, limit)) && Descending(Limit(sorted, limit))
    ensures forall r :: r in Limit(sorted, limit) ==>
      r.lead in leads && Wanted(r.lead, registry) && r == Own(r.lead, docs, ranked)
    ensures forall l :: l in leads && Wanted(l, registry) && Own(l, docs, ranked) !in Limit(sorted, limit) ==>
      |Limit(sorted, limit)| == limit
      && forall kept :: kept in Limit(sorted, limit) ==> kept.lead.stuckScore >= l.stuckScore
  {
    QueryRefinesPerLead(leads, docs, ranked, registry);
    var rows, out := PerLead(leads, docs, ranked, registry), Limit(sorted, limit);
    PerLeadOnce(leads, docs, ranked, registry);
    ReorderKeepsOnce(rows, sorted);
    PerLeadMeaning(leads, docs, ranked, registry);
    forall r | r in out
      ensures r in rows
    {
      SameMembers(rows, sorted, r);
    }
    forall l | l in leads && Wanted(l, registry) && Own(l, docs, ranked) !in out
      ensures |out| == limit && forall kept :: kept in out ==> kept.lead.stuckScore >= l.stuckScore
    {
      SameMembers(rows, sorted, Own(l, docs, ranked));
      DroppedOnlyBehind(sorted, limit, Own(l, docs, ranked));
    }
  }

  // ---- the answer, in the words of the tables ----

  ghost function DocumentsOf(docs: seq<Document>, lead: LeadId): set<nat> { set k: nat | k < |docs| && docs[k].lead == lead }

  ghost function FetchedOf(docs: seq<Document>, lead: LeadId): set<nat> {
    set k: nat | k < |docs| && docs[k].lead == lead && docs[k].fetched
  }

  lemma {:induction false} CountsMeaning(docs: seq<Document>, lead: LeadId)
    ensures DocumentCount(docs, lead) == |DocumentsOf(docs, lead)| && FetchedCount(docs, lead) == |FetchedOf(docs, lead)|
  {
    if docs == [] {
      assert DocumentsOf(docs, lead) == {} && FetchedOf(docs, lead) == {};
    } else {
      var n := |docs| - 1;
      CountsMeaning(docs[..n], lead);
      DocumentsNext(docs, n, lead);
      FetchedNext(docs, n, lead);
    }
  }

  lemma DocumentsNext(docs: seq<Document>, n: nat, lead: LeadId)
    requires n + 1 == |docs|
    ensures |DocumentsOf(docs, lead)| == |DocumentsOf(docs[..n], lead)| + (if docs[n].lead == lead then 1 else 0)
  {
    var before := DocumentsOf(docs[..n], lead);
    assert n !in before;
    assert DocumentsOf(docs, lead) == if docs[n].lead == lead then before + {n} else before;
  }

  lemma FetchedNext(docs: seq<Document>, n: nat, lead: LeadId)
    requires n + 1 == |docs|
    ensures |FetchedOf(docs, lead)| == |FetchedOf(docs[..n], lead)| + (if docs[n].lead == lead && docs[n].fetched then 1 else 0)
  {
    var before := FetchedOf(docs[..n], lead);
    assert n !in before;
    assert FetchedOf(docs, lead) == if docs[n].lead == lead && docs[n].fetched then before + {n} else before;
  }

  /** A lead that the view is for: at one of three stages, not dismissed, and of the
      registry asked for, if one is named. */
  ghost predicate InView(l: Lead, registry: Option<string>) {
    && (l.status == UnderValidation || l.status == UnderVerification || l.status == UnderCertification)
    && !l.dismissed
    && (registry == None || registry == Some("") || registry == Some(l.registry))
  }

  /** What the view says about a lead. */
  ghost predicate Reports(r: Opportunity, l: Lead, docs: seq<Document>, ranked: seq<Audit>) {
    && r.lead == l && r.documents == |DocumentsOf(docs, l.id)| && r.fetched == |FetchedOf(docs, l.id)|
    && (r.audit == None <==> forall a :: a in ranked ==> a.lead != Some(l.id))
    && (r.audit.Some? ==> var newest := r.audit.value;
          newest in ranked && newest.lead == Some(l.id)
          && forall a :: a in ranked && a.lead == Some(l.id) ==> a.createdAt <= newest.createdAt)
  }

  lemma OwnReports(l: Lead, docs: seq<Document>, ranked: seq<Audit>)
    requires NewestFirst(ranked)
    ensures Reports(Own(l, docs, ranked), l, docs, ranked)
  {
    CountsMeaning(docs, l.id);
    FirstIsNewest(ranked, l.id);
  }

  /** Main result in the words of the tables: the view lists leads of the three stages,
      not dismissed and of the registry asked for, each once, with the number of its
      documents, how many are fetched, and its newest audit if it has one, by falling
      score; one is missing only behind a full limit of scores at least as high. */
  lemma ViewMeaning(leads: seq<Lead>, docs: seq<Document>, ranked: seq<Audit>, registry: Option<string>,
                    sorted: seq<Opportunity>, limit: nat)
    requires DistinctIds(leads) && NewestFirst(ranked) && Orders(QueryRows(leads, docs, ranked, registry), sorted)
    ensures var view := if |sorted| > limit then sorted[..limit] else sorted;
      && (forall i, j :: 0 <= i < j < |view| ==> view[i].lead.id != view[j].lead.id)
      && (forall i, j :: 0 <= i < j < |view| ==> view[i].lead.stuckScore >= view[j].lead.stuckScore)
      && (forall r :: r in view ==> r.lead in leads && InView(r.lead, registry) && Reports(r, r.lead, docs, ranked))
    ensures var view := if |sorted| > limit then sorted[..limit] else sorted;
      forall l :: l in leads && InView(l, registry) ==> Shown(l, view) || FullOf(view, limit, l.stuckScore)
  {
    AnswerMeaning(leads, docs, ranked, registry, sorted, limit);
    ViewRows(leads, docs, ranked, registry, Limit(sorted, limit));
    ViewComplete(leads, docs, ranked, registry, Limit(sorted, limit), limit);
  }

  ghost predicate Shown(l: Lead, view: seq<Opportunity>) { exists r :: r in view && r.lead == l }

  /** The limit is reached, by scores at least as high. */
  ghost predicate FullOf(view: seq<Opportunity>, limit: nat, score: real) {
    |view| == limit && forall r :: r in view ==> r.lead.stuckScore >= score
  }

  lemma WantedIff(l: Lead, registry: Option<string>)
    ensures Wanted(l, registry) <==> InView(l, registry)
  {
  }

  lemma ViewRows(leads: seq<Lead>, docs: seq<Document>, ranked: seq<Audit>, registry: Option<string>, view: seq<Opportunity>)
    requires NewestFirst(ranked)
    requires forall r :: r in view ==> Wanted(r.lead, registry) && r == Own(r.lead, docs, ranked)
    ensures forall r :: r in view ==> InView(r.lead, registry) && Reports(r, r.lead, docs, ranked)
  {
    forall r | r in view
      ensures InView(r.lead, registry) && Reports(r, r.lead, docs, ranked)
    {
      WantedIff(r.lead, registry);
      OwnReports(r.lead, docs, ranked);
    }
  }

  lemma ViewComplete(leads: seq<Lead>, docs: seq<Document>, ranked: seq<Audit>, registry: Option<string>,
                     view: seq<Opportunity>, limit: nat)
    requires forall l :: l in leads && Wanted(l, registry) && Own(l, docs, ranked) !in view ==>
      |view| == limit && forall kept :: kept in view ==> kept.lead.stuckScore >= l.stuckScore
    ensures forall l :: l in leads && InView(l, registry) ==> Shown(l, view) || FullOf(view, limit, l.stuckScore)
  {
    forall l | l in leads && InView(l, registry)
      ensures Shown(l, view) || FullOf(view, limit, l.stuckScore)
    {
      WantedIff(l, registry);
      if Own(l, docs, ranked) in view {
        assert Own(l, docs, ranked).lead == l;
      }
    }
  }
}
