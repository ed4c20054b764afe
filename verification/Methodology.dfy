/** The review lifecycle of a generated methodology. The handler that updates the
    status assigns it before its last check; the session's rollback is what
    keeps that assignment out of the stored row. */
module Methodology {
  import opened Prelude

  type UserId = nat
  type Instant = int

  datatype Status = Draft | UnderReview | Approved | Rejected | RevisionRequested

  const TRANSITIONS: map<Status, set<Status>> := map[
    Draft := {UnderReview},
    UnderReview := {Approved, Rejected, RevisionRequested},
    RevisionRequested := {Draft}]

  /** As far as generation looks at it: whether the analysis is an empty
      document, and whether it found a methodology that fits. */
  datatype GapAnalysis = GapAnalysis(empty: bool, fits: bool)

  datatype Row = Row(
    status: Status,
    reason: Option<string>,
    reviewedBy: Option<UserId>,
    reviewedAt: Option<Instant>,
    gap: Option<GapAnalysis>,
    text: Option<string>)

  const CREATED: Row := Row(Draft, None, None, None, None, None)

  datatype Event =
    | Analyze(found: GapAnalysis)
    | Generate(produced: string)
    | Update(target: Status, reason: Option<string>, user: UserId, at: Instant)

  datatype Reply = Saved | InvalidTransition | ReasonRequired | GapMissing | FitsExisting

  predicate Allowed(from: Status, to: Status) {
    from in TRANSITIONS && to in TRANSITIONS[from]
  }

  predicate NeedsReason(s: Status) { s == Rejected || s == RevisionRequested }

  predicate IsVerdict(s: Status) { s == Approved || s == Rejected || s == RevisionRequested }

  predicate HasReason(reason: Option<string>) { reason.Some? && reason.value != "" }

  function Step(m: Row, e: Event): (Row, Reply) {
    match e
    case Analyze(result) => (m.(gap := Some(result)), Saved)
    case Generate(result) =>
      if m.gap.None? || m.gap.value.empty then (m, GapMissing)
      else if m.gap.value.fits then (m, FitsExisting)
      else (m.(text := Some(result)), Saved)
    case Update(target, reason, user, at) =>
      if !Allowed(m.status, target) then (m, InvalidTransition)
      else if NeedsReason(target) && !HasReason(reason) then (m, ReasonRequired)
      else
        (Row(target,
             if NeedsReason(target) then reason else m.reason,
             if IsVerdict(target) then Some(user) else m.reviewedBy,
             if IsVerdict(target) then Some(at) else m.reviewedAt,
             m.gap, m.text), Saved)
  }

  function Next(m: Row, e: Event): Row { Step(m, e).0 }

  function Run(m: Row, es: seq<Event>): Row
    decreases |es|
  {
    if es == [] then m else Run(Next(m, es[0]), es[1..])
  }

  /** The stored row and the session's copy of it. */
  class Session {
    var stored: Row
    var row: Row

    ghost predicate Clean()
      reads this
    {
      row == stored
    }

    constructor ()
      ensures stored == CREATED && Clean()
    {
      stored, row := CREATED, CREATED;
    }

    method Commit()
      modifies this`stored
      ensures stored == row
    {
      stored := row;
    }

    method Rollback()
      modifies this`row
      ensures row == stored
    {
      row := stored;
    }

    method AnalyzeFit(result: GapAnalysis) returns (reply: Reply)
      requires Clean()
      modifies this
      ensures Clean() && (stored, reply) == Step(old(stored), Analyze(result))
    {
      row := row.(gap := Some(result));
      Commit();
      return Saved;
    }

    method GenerateDraft(result: string) returns (reply: Reply)
      requires Clean()
      modifies this
      ensures Clean() && (stored, reply) == Step(old(stored), Generate(result))
    {
      if row.gap.None? || row.gap.value.empty {
        return GapMissing;
      }
      if row.gap.value.fits {
        return FitsExisting;
      }
      row := row.(text := Some(result));
      Commit();
      return Saved;
    }

    method UpdateStatus(target: Status, reason: Option<string>, user: UserId, at: Instant) returns (reply: Reply)
      requires Clean()
      modifies this
      ensures Clean() && (stored, reply) == Step(old(stored), Update(target, reason, user, at))
    {
      if !(row.status in TRANSITIONS && target in TRANSITIONS[row.status]) {
        return InvalidTransition;
      }
      row := row.(status := target);
      if target == Rejected || target == RevisionRequested {
        if reason.None? || reason.value == "" {
          Rollback();
          return ReasonRequired;
        }
        row := row.(reason := reason);
      }
      if target == Approved || target == Rejected || target == RevisionRequested {
        row := row.(reviewedBy := Some(user));
        row := row.(reviewedAt := Some(at));
      }
      Commit();
      return Saved;
    }
  }

  // ---- every run from creation ----

  /** A stored verdict names its reviewer and time, and a negative one its reason. */
  predicate Accountable(m: Row) {
    && (IsVerdict(m.status) ==> m.reviewedBy.Some? && m.reviewedAt.Some?)
    && (NeedsReason(m.status) ==> HasReason(m.reason))
  }

  lemma {:induction false} VerdictsAccountable(m: Row, es: seq<Event>)
    requires Accountable(m)
    ensures Accountable(Run(m, es))
    decreases |es|
  {
    if es != [] {
      VerdictsAccountable(Next(m, es[0]), es[1..]);
    }
  }

  /** The stored status moves only along an edge, and only by an update. */
  lemma StatusMoves(m: Row, e: Event)
    ensures Next(m, e).status != m.status ==> e.Update? && e.target == Next(m, e).status && Allowed(m.status, e.target)
  {
  }

  lemma {:induction false} VerdictsAreFinal(m: Row, es: seq<Event>)
    requires m.status == Approved || m.status == Rejected
    ensures var end := Run(m, es);
      end.status == m.status && end.reason == m.reason && end.reviewedBy == m.reviewedBy && end.reviewedAt == m.reviewedAt
    decreases |es|
  {
    if es != [] {
      assert Next(m, es[0]).status == m.status;
      VerdictsAreFinal(Next(m, es[0]), es[1..]);
    }
  }

  /** Requests after which the stored status has just become `to`. */
  function Entries(m: Row, es: seq<Event>, to: Status): nat
    decreases |es|
  {
    if es == [] then 0
    else (if m.status != to && Next(m, es[0]).status == to then 1 else 0) + Entries(Next(m, es[0]), es[1..], to)
  }

  /** Whether the current review round is not closed by a revision request. */
  function RoundOpen(s: Status): int {
    if s == UnderReview || s == Approved || s == Rejected then 1 else 0
  }

  /** Main result: every entry into review is matched by a revision request,
      except the one still under review or decided. */
  lemma {:induction false} ReviewsBalance(m: Row, es: seq<Event>)
    ensures Entries(m, es, UnderReview) + RoundOpen(m.status)
         == Entries(m, es, RevisionRequested) + RoundOpen(Run(m, es).status)
    decreases |es|
  {
    if es != [] {
      StatusMoves(m, es[0]);
      ReviewsBalance(Next(m, es[0]), es[1..]);
    }
  }

  /** From creation, where no round is open yet. */
  lemma FromCreation(es: seq<Event>)
    ensures Accountable(Run(CREATED, es))
    ensures Entries(CREATED, es, UnderReview) == Entries(CREATED, es, RevisionRequested) + RoundOpen(Run(CREATED, es).status)
  {
    VerdictsAccountable(CREATED, es);
    ReviewsBalance(CREATED, es);
  }

  predicate MayGenerate(m: Row) { m.gap.Some? && !m.gap.value.empty && !m.gap.value.fits }

  /** A text exists only because, at some earlier moment of the run, a gap
      analysis said that no methodology fits. */
  lemma {:induction false} TextNeedsGap(m: Row, es: seq<Event>)
    requires m.text.None? && Run(m, es).text.Some?
    ensures exists n :: 0 <= n < |es| && MayGenerate(Run(m, es[..n])) && es[n].Generate?
    decreases |es|
  {
    if es == [] {
      assert false;
    } else if Next(m, es[0]).text.Some? {
      assert es[..0] == [];
      assert MayGenerate(Run(m, es[..0])) && es[0].Generate?;
    } else {
      var next := Next(m, es[0]);
      TextNeedsGap(next, es[1..]);
      var n :| 0 <= n < |es[1..]| && MayGenerate(Run(next, es[1..][..n])) && es[1..][n].Generate?;
      assert es[..n + 1][1..] == es[1..][..n];
      assert MayGenerate(Run(m, es[..n + 1])) && es[n + 1].Generate?;
    }
  }

  /** A verdict freezes the review, not the text: a request rewrites the text of
      an approved methodology exactly when it is a generation that the stored
      gap analysis allows and that brings another text. */
  lemma ApprovedTextChangesIff(m: Row, e: Event)
    requires m.status == Approved
    ensures Next(m, e).text != m.text <==> e.Generate? && MayGenerate(m) && m.text != Some(e.produced)
  {
  }

  // ---- one request, in the words of the row ----

  /** The edges of the review, pair by pair. */
  lemma ReviewEdges(from: Status, to: Status)
    ensures Allowed(from, to) <==>
      || (from == Draft && to == UnderReview)
      || (from == UnderReview && (to == Approved || to == Rejected || to == RevisionRequested))
      || (from == RevisionRequested && to == Draft)
  {
  }

  /** An update is saved along an edge, with a non-empty reason where one is due; it
      records reviewer and time of a verdict, the reason of a negative one, and
      touches nothing else; otherwise the row stays as it is. */
  lemma UpdateOutcome(m: Row, target: Status, reason: Option<string>, user: UserId, at: Instant)
    ensures var s := Step(m, Update(target, reason, user, at));
      var edge := (m.status == Draft && target == UnderReview)
                  || (m.status == UnderReview && (target == Approved || target == Rejected || target == RevisionRequested))
                  || (m.status == RevisionRequested && target == Draft);
      var negative := target == Rejected || target == RevisionRequested;
      var reasoned := reason != None && reason != Some("");
      && (s.1 == InvalidTransition <==> !edge)
      && (s.1 == ReasonRequired <==> edge && negative && !reasoned)
      && (s.1 == Saved <==> edge && (negative ==> reasoned))
      && (s.1 != Saved ==> s.0 == m)
      && (s.1 == Saved ==>
            s.0.status == target && s.0.gap == m.gap && s.0.text == m.text
            && s.0.reason == (if negative then reason else m.reason)
            && s.0.reviewedBy == (if negative || target == Approved then Some(user) else m.reviewedBy)
            && s.0.reviewedAt == (if negative || target == Approved then Some(at) else m.reviewedAt))
  {
    ReviewEdges(m.status, target);
  }

  /** An analysis is stored in any status. A text is stored only on a stored analysis
      that is not empty and found no fit; a missing or empty one is answered first. */
  lemma DraftOutcome(m: Row, found: GapAnalysis, produced: string)
    ensures Step(m, Analyze(found)) == (m.(gap := Some(found)), Saved)
    ensures var s := Step(m, Generate(produced));
      && (s.1 == Saved <==> m.gap == Some(GapAnalysis(false, false)))
      && (s.1 == FitsExisting <==> m.gap == Some(GapAnalysis(false, true)))
      && (s.1 == Saved || s.1 == FitsExisting || s.1 == GapMissing)
      && s.0 == (if s.1 == Saved then m.(text := Some(produced)) else m)
  {
  }
}
