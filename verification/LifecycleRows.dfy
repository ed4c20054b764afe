/** The stored calculation and report rows, as their endpoints write them. */
module LifecycleRows {
  import opened Prelude
  import opened StatusMachine
  import opened Lifecycles

  type UserId = nat

  class CalculationRow {
    var row: Row<CalcStatus>
    var approvedBy: Option<UserId>

    constructor (status: CalcStatus)
      ensures row == Row(status, map[]) && approvedBy == None
    {
      row, approvedBy := Row(status, map[]), None;
    }

    method PatchFields(updates: seq<Field<CalcStatus>>) returns (reply: PatchReply)
      requires KeysDistinct(updates)
      modifies this`row
      ensures !reply.Saved? ==> row == old(row)
      ensures forall i :: 0 <= i < |updates| && updates[i].StatusTo? ==>
        row.status == CalcStep(old(row.status), PatchCalc(updates[i].target))
      ensures (forall i :: 0 <= i < |updates| ==> !updates[i].StatusTo?) ==> row.status == old(row.status)
    {
      var saved;
      saved, reply := PatchRow(row, updates, CALCULATION, CalcRejected);
      row := saved;
    }

    /** The approval gate, which asks neither the checker nor the row's history. */
    method ApproveRun(hasValidSource: bool, user: UserId) returns (ok: bool)
      modifies this
      ensures row == old(row).(status := CalcStep(old(row.status), Approve(hasValidSource)))
      ensures ok <==> hasValidSource && old(row.status) != CalcApproved
      ensures approvedBy == if ok then Some(user) else old(approvedBy)
    {
      if !hasValidSource {
        return false;
      }
      if row.status == CalcApproved {
        return false;
      }
      row := row.(status := CalcApproved);
      approvedBy := Some(user);
      return true;
    }
  }

  /** The JSON document of a draft; a value may be null. */
  type Document = map<string, Option<string>>

  datatype RegistryResult = Success | Refusal(error: Option<string>)

  const ERROR_KEY := "registry_submission_error"

  class ReportRow {
    var row: Row<ReportStatus>
    var draft: Option<Document>

    constructor (status: ReportStatus, content: Option<Document>)
      ensures row == Row(status, map[]) && draft == content
    {
      row, draft := Row(status, map[]), content;
    }

    method PatchFields(updates: seq<Field<ReportStatus>>) returns (reply: PatchReply)
      requires KeysDistinct(updates)
      modifies this`row
      ensures !reply.Saved? ==> row == old(row)
      ensures forall i :: 0 <= i < |updates| && updates[i].StatusTo? ==>
        row.status == ReportStep(old(row.status), PatchReport(updates[i].target))
      ensures (forall i :: 0 <= i < |updates| ==> !updates[i].StatusTo?) ==> row.status == old(row.status)
    {
      var saved;
      saved, reply := PatchRow(row, updates, REPORT, Rejected);
      row := saved;
    }

    /** Submission to a registry. A refusal sends the report back to draft and is
        meant to be noted in the stored document; but a document that is not empty
        is edited in place and assigned to itself, which the session takes for no
        change, so the note is stored exactly where there was no document. */
    method SubmitToRegistry(calculation: Option<CalcStatus>, registryKnown: bool, result: RegistryResult) returns (ok: bool)
      modifies this
      ensures row == old(row).(status :=
        ReportStep(old(row.status), Submit(calculation == Some(CalcApproved), registryKnown, result.Success?)))
      ensures ok <==> old(row.status) == Approved && calculation == Some(CalcApproved) && registryKnown
      ensures draft != old(draft) <==> ok && result.Refusal? && (old(draft) == None || old(draft) == Some(map[]))
      ensures draft != old(draft) ==> draft == Some(map[ERROR_KEY := result.error])
    {
      if calculation.None? {
        return false;
      }
      if row.status != Approved {
        return false;
      }
      if calculation.value != CalcApproved {
        return false;
      }
      if !registryKnown {
        return false;
      }
      if result.Success? {
        row := row.(status := ReportSubmitted);
      } else {
        row := row.(status := Draft);
        if draft.None? || draft.value == map[] {
          draft := Some(map[ERROR_KEY := result.error]);   // a new dictionary, which the session compares with the old
          assert ERROR_KEY in draft.value;
        }
      }
      return true;
    }
  }
}
