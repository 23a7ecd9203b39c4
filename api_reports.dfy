/**
 * `POST /api/reports` (app/api/reports/route.ts): the checks a report passes before it is
 * stored, in the handler's order, and the normalised description.
 */
module ApiReports {
  import opened Wrappers
  import opened Js
  import opened Http

  /** `VALID_REASONS` */
  const ValidReasons: seq<string> := ["fake_profile", "harassment", "inappropriate", "spam", "safety", "other"]

  const MaxDescription := 500

  /** `description && description.length > 500`; a value without a length never exceeds it. */
  predicate DescriptionTooLong(description: JsValue) {
    Truthy(description) && LengthOf(description).Some? && LengthOf(description).value > MaxDescription
  }

  /** The values of the inserted row. */
  datatype Report = Report(reporterId: string, reportedUserId: JsValue, reason: string, description: JsValue)

  /** The first failing check before the duplicate lookup, in the order the handler tests them. */
  function ReportError(user: string, reportedUserId: JsValue, reason: JsValue, description: JsValue): (r: Option<string>)
    ensures !Truthy(reportedUserId) || !Truthy(reason) <==> r == Some("reported_user_id and reason are required")
    ensures (Truthy(reportedUserId) && Truthy(reason) && StrictEquals(reportedUserId, Str(user)))
              <==> r == Some("Cannot report yourself")
    ensures (Truthy(reportedUserId) && Truthy(reason) && !StrictEquals(reportedUserId, Str(user))
             && !(reason.Str? && reason.s in ValidReasons))
              <==> r == Some("Invalid reason")
    ensures (Truthy(reportedUserId) && !StrictEquals(reportedUserId, Str(user))
             && reason.Str? && reason.s in ValidReasons && DescriptionTooLong(description))
              <==> r == Some("Description too long (max 500 characters)")
    ensures r.None? <==> Truthy(reportedUserId) && !StrictEquals(reportedUserId, Str(user))
                         && reason.Str? && reason.s in ValidReasons && !DescriptionTooLong(description)
  {
    if !Truthy(reportedUserId) || !Truthy(reason) then Some("reported_user_id and reason are required")
    else if StrictEquals(reportedUserId, Str(user)) then Some("Cannot report yourself")
    else if !(reason.Str? && reason.s in ValidReasons) then Some("Invalid reason")
    else if DescriptionTooLong(description) then Some("Description too long (max 500 characters)")
    else None
  }

  /** The handler's decision. `alreadyReported` is the result of the lookup for a pending report
      by the caller about the same user, which runs only once every check has passed. */
  function PostReport(caller: Option<string>, reportedUserId: JsValue, reason: JsValue, description: JsValue,
                      alreadyReported: bool): (r: Outcome<Report>)
    ensures caller.None? ==> r == Err(401, "Unauthorized")
    ensures (caller.Some? && ReportError(caller.value, reportedUserId, reason, description).Some?)
              ==> r == Err(400, ReportError(caller.value, reportedUserId, reason, description).value)
    ensures r == Err(409, "You have already reported this user") <==>
              caller.Some? && ReportError(caller.value, reportedUserId, reason, description).None? && alreadyReported
    ensures r.Crash? <==>
              caller.Some? && ReportError(caller.value, reportedUserId, reason, description).None? && !alreadyReported
              && OptionalTrimOrNull(description).Threw?
    ensures r.Ok? ==> r.status == 201 && caller.Some? && reason.Str? && r.value.reason in ValidReasons
                      && r.value == Report(caller.value, reportedUserId, reason.s, OptionalTrimOrNull(description).v)
  {
    if caller.None? then Err(401, "Unauthorized")
    else match ReportError(caller.value, reportedUserId, reason, description)
      case Some(e) => Err(400, e)
      case None =>
        if alreadyReported then Err(409, "You have already reported this user")
        else match OptionalTrimOrNull(description)
          case Threw => Crash
          case Value(d) => Ok(201, Report(caller.value, reportedUserId, reason.s, d))
  }

  /** A stored report has a reason from the list, a reported user other than the reporter and a
      description that is null or non-empty trimmed text of at most 500 characters. */
  lemma StoredReportValid(caller: Option<string>, reportedUserId: JsValue, reason: JsValue, description: JsValue,
                          alreadyReported: bool)
    requires PostReport(caller, reportedUserId, reason, description, alreadyReported).Ok?
    ensures var rep := PostReport(caller, reportedUserId, reason, description, alreadyReported).value;
      && rep.reason in ValidReasons
      && rep.reportedUserId != Str(rep.reporterId)
      && (rep.description == Null
          || (rep.description.Str? && rep.description.s != "" && Trim(rep.description.s) == rep.description.s
              && Utf16Length(rep.description.s) <= MaxDescription))
  {
    if description.Str? {
      TrimIdempotent(description.s);
      TrimShortens(description.s);
    }
  }
}
