/** Clients of `FormController` that drive one screen through a whole
    attempt, using only the handlers' contracts: what the service receives,
    what the user sees, and the state the form is left in. */
module Scenarios {
  import opened Text
  import opened Dates
  import opened CreateTask

  /** A title and nothing else: the request has an empty description and no
      due date, and a resolved call navigates back. */
  method SubmitTitleOnly(now: Timestamp, offsetMs: int) returns (sent: SubmitResult, effect: Effect)
    ensures sent == Send(CreateTaskDTO("Buy milk", "", None))
    ensures effect == GoBack
  {
    var form := new FormController();
    form.SetTitle("Buy milk");
    TrimTight("Buy milk");
    TrimEmptyIffBlank("");
    sent := form.Submit(now, offsetMs);
    effect := form.Settle(Resolved);
    assert !form.saving;
  }

  /** A whitespace-only title is refused before the due date is looked at,
      and the form does not enter the saving state. */
  method BlankTitleWithFutureDate(now: Timestamp, offsetMs: int) returns (sent: SubmitResult)
    ensures sent == Invalid(TitleRequired)
    ensures ValidationAlert(sent.reason) == Alert("Validation", "Title is required")
  {
    var form := new FormController();
    form.SetTitle("  ");
    form.OpenPicker(now);
    form.OnDatePicked(Some(Timestamp(now.ms + MsPerDay)));
    TrimEmptyIffBlank("  ");
    sent := form.Submit(now, offsetMs);
    assert !form.saving && form.inFlight == None;
  }

  /** Yesterday is in the past: refused, nothing sent. */
  method DueYesterday(now: Timestamp, offsetMs: int) returns (sent: SubmitResult)
    ensures sent == Invalid(DueDateInPast)
    ensures ValidationAlert(sent.reason) == Alert("Validation", "Due date cannot be in the past")
  {
    var form := new FormController();
    form.SetTitle("Ship release");
    var yesterday := Timestamp(now.ms - MsPerDay);
    form.OpenPicker(now);
    form.OnDatePicked(Some(yesterday));
    TrimTight("Ship release");
    TrimEmptyIffBlank("Ship release");
    DayBefore(now, offsetMs);
    PastDueDateRejected("Ship release", "", Some(yesterday), now, offsetMs);
    sent := form.Submit(now, offsetMs);
    assert !form.saving;
  }

  /** Opening the picker and cancelling keeps the defaulted "today", which
      passes validation; a rejected call shows the service's message, clears
      `saving` and keeps the form, so the same request can be sent again. */
  method FailedSubmitThenRetry(now: Timestamp, offsetMs: int) returns (first: SubmitResult, effect: Effect, second: SubmitResult)
    ensures first == Send(CreateTaskDTO("Call mom", "", Some(ToIso(now))))
    ensures effect == Alert("Error", "network down")
    ensures second == first
  {
    var form := new FormController();
    form.SetTitle("Call mom");
    form.OpenPicker(now);
    form.OnDatePicked(None);
    assert form.dueDate == Some(now);
    TrimTight("Call mom");
    TrimEmptyIffBlank("Call mom");
    TrimEmptyIffBlank("");
    SameDayAccepted("Call mom", "", now, now, offsetMs);
    first := form.Submit(now, offsetMs);
    assert form.saving;
    effect := form.Settle(Rejected(ErrorInstance("network down")));
    assert !form.saving && form.title == "Call mom" && form.dueDate == Some(now);
    second := form.Submit(now, offsetMs);
  }
}
