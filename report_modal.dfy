/**
 * The report dialog (components/report-modal.tsx): a reason step, a details step and a done
 * step, with the submit request and the messages shown when it fails.
 */
module ReportModal {
  import opened Wrappers
  import opened Js
  import ApiReports

  datatype Step = ReasonStep | DetailsStep | DoneStep

  /** The `value`s of `REPORT_REASONS`, in display order. */
  const ReasonValues: seq<string> := ["fake_profile", "harassment", "inappropriate", "spam", "safety", "other"]

  /** The JSON body the dialog posts to `/api/reports`. */
  datatype ReportRequest = ReportRequest(reportedUserId: string, reason: string, description: JsValue)

  /** The response of the request, as far as the dialog reads it: `Rejected` when `fetch` itself
      rejects; otherwise its status, whether its body parses as JSON, and the body's `error`. */
  datatype Response = Rejected | Response(ok: bool, status: nat, parses: bool, error: Option<string>)

  /** The toast for a failed response: the duplicate message for 409, else the server's error or
      the generic message. */
  function FailureMessage(res: Response): (r: string)
    requires res.Response?
    ensures res.status == 409 ==> r == "You have already reported this user"
    ensures res.status != 409 && res.error.Some? && res.error.value != "" ==> r == res.error.value
    ensures (res.status != 409 && (res.error.None? || res.error.value == "")) ==> r == "Failed to submit report"
  {
    if res.status == 409 then "You have already reported this user"
    else if res.error.Some? && res.error.value != "" then res.error.value
    else "Failed to submit report"
  }

  class ReportDialog {
    var step: Step
    var selectedReason: Option<string>
    var description: string
    var submitting: bool
    /** Requests sent, toasts shown and `onClose` calls made, in order. */
    var requests: seq<ReportRequest>
    var toasts: seq<string>
    var closeCalls: nat

    /** The dialog opens on the reason step with nothing chosen. */
    constructor()
      ensures step == ReasonStep && selectedReason.None? && description == "" && !submitting
      ensures requests == [] && toasts == [] && closeCalls == 0
    {
      step := ReasonStep;
      selectedReason := None;
      description := "";
      submitting := false;
      requests := [];
      toasts := [];
      closeCalls := 0;
    }

    /** `handleClose`: `reset` the dialog, then call `onClose`. */
    method HandleClose()
      modifies this
      ensures step == ReasonStep && selectedReason.None? && description == "" && !submitting
      ensures closeCalls == old(closeCalls) + 1
      ensures requests == old(requests) && toasts == old(toasts)
    {
      step := ReasonStep;
      selectedReason := None;
      description := "";
      submitting := false;
      closeCalls := closeCalls + 1;
    }

    /** `handleSelectReason`: record the reason and move to the details step. */
    method HandleSelectReason(reason: string)
      requires reason in ReasonValues
      modifies this
      ensures selectedReason == Some(reason) && step == DetailsStep
      ensures description == old(description) && submitting == old(submitting)
      ensures requests == old(requests) && toasts == old(toasts) && closeCalls == old(closeCalls)
    {
      selectedReason := Some(reason);
      step := DetailsStep;
    }

    /** The Back button: to the reason step, keeping the reason and the description. */
    method Back()
      modifies this
      ensures step == ReasonStep
      ensures selectedReason == old(selectedReason) && description == old(description) && submitting == old(submitting)
      ensures requests == old(requests) && toasts == old(toasts) && closeCalls == old(closeCalls)
    {
      step := ReasonStep;
    }

    /** Typing in the details box. */
    method SetDescription(text: string)
      modifies this
      ensures description == text
      ensures step == old(step) && selectedReason == old(selectedReason) && submitting == old(submitting)
      ensures requests == old(requests) && toasts == old(toasts) && closeCalls == old(closeCalls)
    {
      description := text;
    }

    /** `handleSubmit`: nothing without a reason; otherwise post the report (with the description
        trimmed, empty becoming null), then show the failure message and stay, or move to done.
        When `fetch` rejects, or a failed response's body is not JSON, the handler throws and
        the dialog stays as it is, still submitting. */
    method HandleSubmit(reportedUserId: string, res: Response)
      modifies this
      ensures old(selectedReason).None? ==>
        step == old(step) && submitting == old(submitting) && requests == old(requests) && toasts == old(toasts)
      ensures old(selectedReason).Some? ==>
        requests == old(requests) + [ReportRequest(reportedUserId, old(selectedReason).value, TrimmedOrNull(old(description)))]
      ensures old(selectedReason).Some? && (res.Rejected? || (!res.ok && !res.parses)) ==>
        step == old(step) && toasts == old(toasts) && submitting
      ensures old(selectedReason).Some? && res.Response? && !res.ok && res.parses ==>
        step == old(step) && toasts == old(toasts) + [FailureMessage(res)] && !submitting
      ensures old(selectedReason).Some? && res.Response? && res.ok ==> step == DoneStep && toasts == old(toasts) && !submitting
      ensures selectedReason == old(selectedReason) && description == old(description) && closeCalls == old(closeCalls)
    {
      if selectedReason.None? {
        return;
      }
      submitting := true;
      requests := requests + [ReportRequest(reportedUserId, selectedReason.value, TrimmedOrNull(description))];
      if res.Rejected? || (!res.ok && !res.parses) {
        return;
      }
      if !res.ok {
        toasts := toasts + [FailureMessage(res)];
        submitting := false;
        return;
      }
      step := DoneStep;
      submitting := false;
    }
  }

  /** Every reason the dialog offers is one the reports endpoint accepts. */
  lemma OfferedReasonsAccepted(reason: string)
    requires reason in ReasonValues
    ensures reason in ApiReports.ValidReasons
  {
  }

  /** The description the dialog sends passes through the endpoint's own normalisation
      unchanged and never makes it throw. */
  lemma SentDescriptionStable(description: string)
    ensures OptionalTrimOrNull(TrimmedOrNull(description)) == Value(TrimmedOrNull(description))
  {
    TrimIdempotent(description);
  }
}
