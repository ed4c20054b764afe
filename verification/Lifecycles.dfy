/** Project, calculation and report statuses over whole runs, including the
    endpoints that write a status without asking the checker. */
module Lifecycles {
  import opened Prelude
  import opened StatusMachine

  // ---- projects ----

  datatype ProjectStatus =
    | Onboarding | DataCollection | Calculating | Review | Submitted | Verified | Monitoring | ProjectRejected

  const PROJECT: Transitions<ProjectStatus> := map[
    Onboarding := {DataCollection},
    DataCollection := {Calculating},
    Calculating := {Review},
    Review := {Submitted},
    Submitted := {Verified},
    Verified := {Monitoring}]

  function Stage(s: ProjectStatus): nat {
    match s
    case Onboarding => 0
    case DataCollection => 1
    case Calculating => 2
    case Review => 3
    case Submitted => 4
    case Verified => 5
    case Monitoring => 6
    case ProjectRejected => 7
  }

  lemma ProjectClimbs()
    ensures Climbs(PROJECT, ProjectRejected, Stage)
  {
  }

  /** Stages cannot be skipped: a run that does not end in rejection made exactly
      one change for each stage between its two ends. */
  lemma {:induction false} ProjectStagesInOrder(from: ProjectStatus, targets: seq<ProjectStatus>)
    ensures var end := PatchRun(from, targets, PROJECT, ProjectRejected);
      end != ProjectRejected ==> Stage(end) == Stage(from) + Changes(from, targets, PROJECT, ProjectRejected)
    decreases |targets|
  {
    if targets != [] {
      var next := Patch(from, targets[0], PROJECT, ProjectRejected);
      ProjectStagesInOrder(next, targets[1..]);
      ProjectClimbs();
      RunClimbs(next, targets[1..], PROJECT, ProjectRejected, Stage);
    }
  }

  /** From onboarding, PATCH requests change a project's status at most seven times. */
  lemma ProjectChangesBound(targets: seq<ProjectStatus>)
    ensures Changes(Onboarding, targets, PROJECT, ProjectRejected) <= 7
  {
    ProjectClimbs();
    RunClimbs(Onboarding, targets, PROJECT, ProjectRejected, Stage);
  }

  // ---- calculation runs ----

  datatype CalcStatus = CalcDraft | ReviewPending | CalcApproved | CalcRejected

  const CALCULATION: Transitions<CalcStatus> := map[
    CalcDraft := {ReviewPending, CalcApproved, CalcRejected},
    ReviewPending := {CalcApproved, CalcRejected}]

  function CalcRank(s: CalcStatus): nat {
    match s
    case CalcDraft => 0
    case ReviewPending => 1
    case CalcApproved => 2
    case CalcRejected => 3
  }

  lemma CalculationClimbs()
    ensures Climbs(CALCULATION, CalcRejected, CalcRank)
  {
  }

  /** A PATCH naming a status, or the approval endpoint, which asks only for a
      validated data source and a status that is not yet approved. */
  datatype CalcEvent = PatchCalc(target: CalcStatus) | Approve(hasValidSource: bool)

  function CalcStep(s: CalcStatus, e: CalcEvent): CalcStatus {
    match e
    case PatchCalc(target) => Patch(s, target, CALCULATION, CalcRejected)
    case Approve(hasValidSource) => if hasValidSource && s != CalcApproved then CalcApproved else s
  }

  function CalcRun(s: CalcStatus, es: seq<CalcEvent>): CalcStatus
    decreases |es|
  {
    if es == [] then s else CalcRun(CalcStep(s, es[0]), es[1..])
  }

  predicate Decided(s: CalcStatus) { s == CalcApproved || s == CalcRejected }

  /** With the approval endpoint in play a decided calculation stays decided. */
  lemma {:induction false} DecidedStaysDecided(s: CalcStatus, es: seq<CalcEvent>)
    requires Decided(s)
    ensures Decided(CalcRun(s, es))
    decreases |es|
  {
    if es != [] {
      DecidedStaysDecided(CalcStep(s, es[0]), es[1..]);
    }
  }

  /** Rejection alone is not final: it is left in some run exactly when the run
      reaches an approval with a validated source. */
  lemma {:induction false} RejectionReopenedIff(es: seq<CalcEvent>)
    ensures (exists n :: 0 <= n <= |es| && CalcRun(CalcRejected, es[..n]) != CalcRejected) <==> Approve(true) in es
    decreases |es|
  {
    if es == [] {
      assert forall n :: 0 <= n <= |es| ==> es[..n] == [];
    } else if es[0] == Approve(true) {
      assert es[..1] == [es[0]] && es[..1][1..] == [];
      assert CalcRun(CalcRejected, es[..1]) == CalcApproved;
    } else {
      RejectionReopenedIff(es[1..]);
      assert CalcStep(CalcRejected, es[0]) == CalcRejected;
      forall n | 1 <= n <= |es|
        ensures CalcRun(CalcRejected, es[..n]) == CalcRun(CalcRejected, es[1..][..n - 1])
      {
        assert es[..n][1..] == es[1..][..n - 1];
      }
      if n :| 0 <= n <= |es[1..]| && CalcRun(CalcRejected, es[1..][..n]) != CalcRejected {
        assert CalcRun(CalcRejected, es[..n + 1]) != CalcRejected;
      }
      assert es[..0] == [];
      assert es == [es[0]] + es[1..];
    }
  }

  // ---- reports ----

  datatype ReportStatus = Draft | HumanReview | Approved | ReportSubmitted | VvbApproved | Rejected

  const REPORT: Transitions<ReportStatus> := map[
    Draft := {ReportSubmitted, Approved, HumanReview, Rejected},
    HumanReview := {Approved, Rejected},
    Approved := {ReportSubmitted, Rejected},
    ReportSubmitted := {VvbApproved, Rejected}]

  function ReportRank(s: ReportStatus): nat {
    match s
    case Draft => 0
    case HumanReview => 1
    case Approved => 2
    case ReportSubmitted => 3
    case VvbApproved => 4
    case Rejected => 5
  }

  lemma ReportClimbs()
    ensures Climbs(REPORT, Rejected, ReportRank)
  {
  }

  /** A PATCH naming a status, or a submission: it needs an approved report, an
      approved calculation and a known registry, and a refusal by the registry
      sends the report back to draft. */
  datatype ReportEvent =
    | PatchReport(target: ReportStatus)
    | Submit(calcApproved: bool, registryKnown: bool, success: bool)

  function ReportStep(s: ReportStatus, e: ReportEvent): ReportStatus {
    match e
    case PatchReport(target) => Patch(s, target, REPORT, Rejected)
    case Submit(calcApproved, registryKnown, success) =>
      if s != Approved || !calcApproved || !registryKnown then s
      else if success then ReportSubmitted else Draft
  }

  function ReportRun(s: ReportStatus, es: seq<ReportEvent>): ReportStatus
    decreases |es|
  {
    if es == [] then s else ReportRun(ReportStep(s, es[0]), es[1..])
  }

  predicate Closed(s: ReportStatus) { s == VvbApproved || s == Rejected }

  /** Approved by the verification body, or rejected: no run leaves these two,
      and rejection is final on its own. */
  lemma {:induction false} ClosedStaysClosed(s: ReportStatus, es: seq<ReportEvent>)
    requires Closed(s)
    ensures Closed(ReportRun(s, es))
    ensures s == Rejected ==> ReportRun(s, es) == Rejected
    decreases |es|
  {
    if es != [] {
      ClosedStaysClosed(ReportStep(s, es[0]), es[1..]);
    }
  }

  /** Every run that begins before submission and ends in approval by the
      verification body was submitted on the way. */
  lemma {:induction false} VvbApprovalNeedsSubmission(s: ReportStatus, es: seq<ReportEvent>)
    requires s != VvbApproved && ReportRun(s, es) == VvbApproved
    ensures exists n :: 0 <= n < |es| && ReportRun(s, es[..n]) == ReportSubmitted
    decreases |es|
  {
    if es == [] {
      assert false;
    } else if s == ReportSubmitted {
      assert es[..0] == [];
      assert ReportRun(s, es[..0]) == ReportSubmitted;
    } else {
      var next := ReportStep(s, es[0]);
      VvbApprovalNeedsSubmission(next, es[1..]);
      var n :| 0 <= n < |es[1..]| && ReportRun(next, es[1..][..n]) == ReportSubmitted;
      assert es[..n + 1][1..] == es[1..][..n];
      assert ReportRun(s, es[..n + 1]) == ReportSubmitted;
    }
  }

  function ReportChanges(s: ReportStatus, es: seq<ReportEvent>): nat
    decreases |es|
  {
    if es == [] then 0
    else (if ReportStep(s, es[0]) != s then 1 else 0) + ReportChanges(ReportStep(s, es[0]), es[1..])
  }

  /** Submissions that the registry refused. */
  function Refusals(s: ReportStatus, es: seq<ReportEvent>): nat
    decreases |es|
  {
    if es == [] then 0
    else (if s == Approved && es[0].Submit? && ReportStep(s, es[0]) == Draft then 1 else 0)
         + Refusals(ReportStep(s, es[0]), es[1..])
  }

  /** Termination measure: a refusal is the only step down, and it costs two
      ranks, so changes are bounded by the ranks plus three for each refusal. */
  lemma {:induction false} ReportChangesBound(s: ReportStatus, es: seq<ReportEvent>)
    ensures ReportRank(s) + ReportChanges(s, es) <= ReportRank(ReportRun(s, es)) + 3 * Refusals(s, es)
    ensures ReportChanges(s, es) <= 5 - ReportRank(s) + 3 * Refusals(s, es)
    decreases |es|
  {
    if es != [] {
      var next := ReportStep(s, es[0]);
      ReportClimbs();
      if es[0].PatchReport? {
        PatchClimbs(s, es[0].target, REPORT, Rejected, ReportRank);
      }
      ReportChangesBound(next, es[1..]);
    }
  }

  // ---- a report and the calculation it rests on ----

  datatype Case = Case(calculation: CalcStatus, report: Option<ReportStatus>)

  datatype CaseEvent = OnCalculation(c: CalcEvent) | Create(status: ReportStatus) | OnReport(r: ReportEvent)

  /** Creation needs an approved calculation and takes any initial status from
      the payload; a submission sees the calculation as it is now. */
  function CaseStep(s: Case, e: CaseEvent): Case {
    match e
    case OnCalculation(c) => s.(calculation := CalcStep(s.calculation, c))
    case Create(status) => if s.calculation == CalcApproved && s.report.None? then s.(report := Some(status)) else s
    case OnReport(r) =>
      if s.report.None? then s
      else s.(report := Some(ReportStep(s.report.value, if r.Submit? then r.(calcApproved := s.calculation == CalcApproved) else r)))
  }

  function CaseRun(s: Case, es: seq<CaseEvent>): Case
    decreases |es|
  {
    if es == [] then s else CaseRun(CaseStep(s, es[0]), es[1..])
  }

  /** A report never rests on a calculation that is a draft or under review, in
      any run over both rows. */
  lemma {:induction false} ReportRestsOnDecision(s: Case, es: seq<CaseEvent>)
    requires s.report.Some? ==> Decided(s.calculation)
    ensures CaseRun(s, es).report.Some? ==> Decided(CaseRun(s, es).calculation)
    decreases |es|
  {
    if es != [] {
      ReportRestsOnDecision(CaseStep(s, es[0]), es[1..]);
    }
  }

  // ---- the maps, pair by pair ----

  /** The moves that a PATCH may make of a project: one stage on, or to rejection. */
  lemma ProjectMoves(s: ProjectStatus, target: ProjectStatus)
    ensures Accepted(s, target, PROJECT, ProjectRejected) <==>
      || s == target || target == ProjectRejected
      || (s == Onboarding && target == DataCollection) || (s == DataCollection && target == Calculating)
      || (s == Calculating && target == Review) || (s == Review && target == Submitted)
      || (s == Submitted && target == Verified) || (s == Verified && target == Monitoring)
    ensures Patch(s, target, PROJECT, ProjectRejected) == if Accepted(s, target, PROJECT, ProjectRejected) then target else s
  {
  }

  /** Of a calculation, by PATCH; and its approval, which needs a validated source and
      makes any calculation approved. */
  lemma CalculationMoves(s: CalcStatus, target: CalcStatus, hasValidSource: bool)
    ensures Accepted(s, target, CALCULATION, CalcRejected) <==>
      || s == target || target == CalcRejected
      || (s == CalcDraft && (target == ReviewPending || target == CalcApproved))
      || (s == ReviewPending && target == CalcApproved)
    ensures CalcStep(s, PatchCalc(target)) == if Accepted(s, target, CALCULATION, CalcRejected) then target else s
    ensures CalcStep(s, Approve(hasValidSource)) == CalcApproved <==> hasValidSource || s == CalcApproved
    ensures !hasValidSource ==> CalcStep(s, Approve(hasValidSource)) == s
  {
  }

  /** Of a report, by PATCH; and its submission, which moves an approved report only,
      of an approved calculation and to a known registry: on if the registry takes it,
      back to draft if not. */
  lemma ReportMoves(s: ReportStatus, target: ReportStatus, calcApproved: bool, registryKnown: bool, success: bool)
    ensures Accepted(s, target, REPORT, Rejected) <==>
      || s == target || target == Rejected
      || (s == Draft && (target == HumanReview || target == Approved || target == ReportSubmitted))
      || (s == HumanReview && target == Approved) || (s == Approved && target == ReportSubmitted)
      || (s == ReportSubmitted && target == VvbApproved)
    ensures ReportStep(s, PatchReport(target)) == if Accepted(s, target, REPORT, Rejected) then target else s
    ensures var moved := s == Approved && calcApproved && registryKnown;
      && (moved && success ==> ReportStep(s, Submit(calcApproved, registryKnown, success)) == ReportSubmitted)
      && (moved && !success ==> ReportStep(s, Submit(calcApproved, registryKnown, success)) == Draft)
      && (!moved ==> ReportStep(s, Submit(calcApproved, registryKnown, success)) == s)
  {
  }

  /** A report is created on an approved calculation only, once, and a submission asks
      for the calculation as it then is. */
  lemma CaseMoves(s: Case, status: ReportStatus, registryKnown: bool, success: bool)
    ensures CaseStep(s, Create(status)) ==
      if s.calculation == CalcApproved && s.report == None then Case(CalcApproved, Some(status)) else s
    ensures forall claimed :: s.report == Some(Approved) && registryKnown && success ==>
      (CaseStep(s, OnReport(Submit(claimed, registryKnown, success))).report == Some(ReportSubmitted) <==> s.calculation == CalcApproved)
  {
  }
}
