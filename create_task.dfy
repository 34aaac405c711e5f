/** The create-task screen's controller: five pieces of form state, the
    field setters, the date picker's default-on-open effect and change
    callback, and `onSave`, which validates, builds the request, calls the
    task service and reacts to how that call settles.

    The call `await createTask(dto)` splits `onSave` in two: `Submit` runs up
    to and including the call (validation, `saving = true`, the request
    handed to the service), `Settle` runs the rest once the service has
    answered (`router.back()` or an alert, then `finally saving = false`).
    The service, the navigator and the alert are outside the model: `Submit`
    returns the request the service receives, `Settle` receives the service's
    outcome and returns the navigation or alert to perform. */
module CreateTask {
  import opened Text
  import opened Dates

  datatype Option<T> = None | Some(value: T)

  /** `CreateTaskDTO`: what the task service receives. */
  datatype CreateTaskDTO = CreateTaskDTO(title: string, description: string, dueDate: Option<IsoTimestamp>)

  /** The two checks `onSave` makes before anything is sent. */
  datatype ValidationError = TitleRequired | DueDateInPast {
    /** The text of the "Validation" alert that reports the error. */
    function Message(): string {
      match this
      case TitleRequired => "Title is required"
      case DueDateInPast => "Due date cannot be in the past"
    }
  }

  /** How `Submit` ends: a validation alert, or a request handed to the service. */
  datatype SubmitResult = Invalid(reason: ValidationError) | Send(request: CreateTaskDTO)

  /** What `createTask` may throw: an `Error` instance with its `message`, or
      any other value. */
  datatype Thrown = ErrorInstance(message: string) | OtherValue

  /** How the awaited `createTask(dto)` settles. */
  datatype ServiceOutcome = Resolved | Rejected(error: Thrown)

  /** The screen's reaction: `router.back()` or `Alert.alert(heading, text)`. */
  datatype Effect = GoBack | Alert(heading: string, text: string)

  const FallbackMessage: string := "Failed to create task"

  /** The alert `onSave` shows for a failed validation: always under the
      heading "Validation", and each error with its own text. */
  function ValidationAlert(e: ValidationError): (a: Effect)
    ensures a.Alert? && a.heading == "Validation"
    ensures a.text == "Title is required" <==> e == TitleRequired
    ensures a.text == "Due date cannot be in the past" <==> e == DueDateInPast
  {
    Alert("Validation", e.Message())
  }

  /** Past-date test on the truncated dates, as `sel < today` states it. */
  predicate InPast(due: Timestamp, now: Timestamp, offsetMs: int) {
    LocalMidnight(due, offsetMs).ms < LocalMidnight(now, offsetMs).ms
  }

  /** The two validation steps of `onSave`, title first: a blank title is
      reported whatever the due date, and a due date is refused exactly when
      its local calendar day is strictly before today's. */
  function Validate(title: string, dueDate: Option<Timestamp>, now: Timestamp, offsetMs: int): (v: Option<ValidationError>)
    ensures v == Some(TitleRequired) <==> Blank(title)
    ensures v == Some(DueDateInPast)
        <==> !Blank(title) && dueDate.Some? && DayOf(dueDate.value, offsetMs) < DayOf(now, offsetMs)
  {
    TrimEmptyIffBlank(title);
    if Trim(title) == [] then Some(TitleRequired)
    else if dueDate.Some? then
      MidnightOrder(dueDate.value, now, offsetMs);
      if InPast(dueDate.value, now, offsetMs) then Some(DueDateInPast) else None
    else None
  }

  /** `dueDate ? dueDate.toISOString() : undefined`. */
  function WireDate(dueDate: Option<Timestamp>): Option<IsoTimestamp> {
    match dueDate
    case None => None
    case Some(d) => Some(ToIso(d))
  }

  /** The DTO built inside the `try` block of `onSave`. */
  function BuildRequest(title: string, description: string, dueDate: Option<Timestamp>): CreateTaskDTO {
    CreateTaskDTO(Trim(title), Trim(description), WireDate(dueDate))
  }

  /** The synchronous part of `onSave` on a given form state. A request goes
      out only with a non-empty title that has no whitespace at either end. */
  function Submission(title: string, description: string, dueDate: Option<Timestamp>, now: Timestamp, offsetMs: int): (r: SubmitResult)
    ensures r.Send? ==> r.request.title != [] && Tight(r.request.title)
    ensures r.Send? ==> Tight(r.request.description)
  {
    match Validate(title, dueDate, now, offsetMs)
    case Some(e) => Invalid(e)
    case None => Send(BuildRequest(title, description, dueDate))
  }

  /** The alert text of the `catch` block: the message of a thrown `Error`,
      the fallback for anything else that was thrown. */
  function FailureText(error: Thrown): string {
    match error
    case ErrorInstance(m) => m
    case OtherValue => FallbackMessage
  }

  /** What the rest of `onSave` does once the service call has settled:
      navigate back exactly on success; otherwise alert under the heading
      "Error" with the thrown `Error`'s own message, or with "Failed to create
      task" when what was thrown is not an `Error`. */
  function SettleEffect(o: ServiceOutcome): (e: Effect)
    ensures e == GoBack <==> o == Resolved
    ensures o.Rejected? ==> e.Alert? && e.heading == "Error"
    ensures o.Rejected? && o.error.ErrorInstance? ==> e.text == o.error.message
    ensures o == Rejected(OtherValue) ==> e.text == "Failed to create task"
  {
    match o
    case Resolved => GoBack
    case Rejected(error) => Alert("Error", FailureText(error))
  }

  /** An empty or whitespace-only title is rejected with "Title is required",
      whatever the description and due date, and nothing else is. */
  lemma BlankTitleRejected(title: string, description: string, dueDate: Option<Timestamp>, now: Timestamp, offsetMs: int)
    ensures Submission(title, description, dueDate, now, offsetMs) == Invalid(TitleRequired) <==> Blank(title)
  {
    TrimEmptyIffBlank(title);
  }

  /** With a usable title, the due date is rejected exactly when its local
      calendar day is strictly before today's. */
  lemma PastDueDateRejected(title: string, description: string, dueDate: Option<Timestamp>, now: Timestamp, offsetMs: int)
    requires !Blank(title)
    ensures Submission(title, description, dueDate, now, offsetMs) == Invalid(DueDateInPast)
        <==> dueDate.Some? && DayOf(dueDate.value, offsetMs) < DayOf(now, offsetMs)
  {
    TrimEmptyIffBlank(title);
    if dueDate.Some? {
      MidnightOrder(dueDate.value, now, offsetMs);
    }
  }

  /** A request is sent exactly when the title is not blank and the due
      date, if any, is today or later; in particular a due date on the same
      calendar day as now passes. */
  lemma SendIffValid(title: string, description: string, dueDate: Option<Timestamp>, now: Timestamp, offsetMs: int)
    ensures Submission(title, description, dueDate, now, offsetMs).Send?
        <==> !Blank(title) && (dueDate.None? || DayOf(dueDate.value, offsetMs) >= DayOf(now, offsetMs))
  {
    TrimEmptyIffBlank(title);
    if dueDate.Some? {
      MidnightOrder(dueDate.value, now, offsetMs);
    }
  }

  /** A due date on the same local calendar day as now never trips the
      strict `sel < today` test: with a usable title the request goes out. */
  lemma SameDayAccepted(title: string, description: string, due: Timestamp, now: Timestamp, offsetMs: int)
    requires !Blank(title) && DayOf(due, offsetMs) == DayOf(now, offsetMs)
    ensures Submission(title, description, Some(due), now, offsetMs) == Send(BuildRequest(title, description, Some(due)))
  {
    TrimEmptyIffBlank(title);
    SameDaySameMidnight(due, now, offsetMs);
  }

  /** The request that goes out carries the trimmed title and description,
      and the due date serialised when one is set and absent otherwise. Its
      texts are already trimmed: trimming them again, as a receiver might,
      changes nothing. */
  lemma RequestFields(title: string, description: string, dueDate: Option<Timestamp>, now: Timestamp, offsetMs: int)
    requires Submission(title, description, dueDate, now, offsetMs).Send?
    ensures var dto := Submission(title, description, dueDate, now, offsetMs).request;
      dto.title == Trim(title) && dto.description == Trim(description) &&
      (dto.dueDate.None? <==> dueDate.None?) &&
      (dueDate.Some? ==> dto.dueDate == Some(ToIso(dueDate.value))) &&
      Trim(dto.title) == dto.title && Trim(dto.description) == dto.description
  {
    TrimIdempotent(title);
    TrimIdempotent(description);
  }

  /** The create-task screen's state (`useState` hooks) and its handlers. */
  class FormController {
    var title: string
    var description: string
    var dueDate: Option<Timestamp>
    var pickerVisible: bool
    var saving: bool
    /** The request whose `createTask` call is awaited, if one is. */
    ghost var inFlight: Option<CreateTaskDTO>

    /** The picker never shows without a date, `saving` is set exactly while
        a request is outstanding, and an outstanding request has a
        non-empty title with no whitespace at either end. */
    ghost predicate Valid()
      reads this
    {
      (pickerVisible ==> dueDate.Some?) &&
      (saving <==> inFlight.Some?) &&
      (inFlight.Some? ==> inFlight.value.title != [] && Tight(inFlight.value.title))
    }

    /** A fresh screen: empty fields, no date, picker closed, not saving. */
    constructor ()
      ensures Valid()
      ensures title == "" && description == "" && dueDate == None
      ensures !pickerVisible && !saving && inFlight == None
    {
      title, description, dueDate := "", "", None;
      pickerVisible, saving := false, false;
      inFlight := None;
    }

    /** `onChangeText={setTitle}`: no validation while typing. */
    method SetTitle(text: string)
      requires Valid()
      modifies this
      ensures Valid()
      ensures title == text
      ensures description == old(description) && dueDate == old(dueDate)
      ensures pickerVisible == old(pickerVisible) && saving == old(saving) && inFlight == old(inFlight)
    {
      title := text;
    }

    /** `onChangeText={setDescription}`. */
    method SetDescription(text: string)
      requires Valid()
      modifies this
      ensures Valid()
      ensures description == text
      ensures title == old(title) && dueDate == old(dueDate)
      ensures pickerVisible == old(pickerVisible) && saving == old(saving) && inFlight == old(inFlight)
    {
      description := text;
    }

    /** The date button's `setShowDatePicker(true)` followed by the effect
        that defaults an unset due date to `now`. An existing date is kept. */
    method OpenPicker(now: Timestamp)
      requires Valid()
      modifies this
      ensures Valid()
      ensures pickerVisible
      ensures dueDate == if old(dueDate).None? then Some(now) else old(dueDate)
      ensures title == old(title) && description == old(description)
      ensures saving == old(saving) && inFlight == old(inFlight)
    {
      pickerVisible := true;
      if dueDate.None? {
        dueDate := Some(now);
      }
    }

    /** The picker's `onChange`: always close it, keep a delivered date, and
        on a cancel (no date) leave the due date as it was. */
    method OnDatePicked(date: Option<Timestamp>)
      requires Valid()
      modifies this
      ensures Valid()
      ensures !pickerVisible
      ensures dueDate == if date.Some? then date else old(dueDate)
      ensures title == old(title) && description == old(description)
      ensures saving == old(saving) && inFlight == old(inFlight)
    {
      pickerVisible := false;
      if date.Some? {
        dueDate := date;
      }
    }

    /** `onSave` up to `await createTask(dto)`, reachable only while the
        button is enabled (`disabled={saving}`). A failed check changes
        nothing; a passing one sets `saving` and hands over the request. */
    method Submit(now: Timestamp, offsetMs: int) returns (r: SubmitResult)
      requires Valid() && !saving
      modifies this
      ensures Valid()
      ensures r == Submission(old(title), old(description), old(dueDate), now, offsetMs)
      ensures saving <==> r.Send?
      ensures inFlight == if r.Send? then Some(r.request) else None
      ensures title == old(title) && description == old(description)
      ensures dueDate == old(dueDate) && pickerVisible == old(pickerVisible)
    {
      var check := Validate(title, dueDate, now, offsetMs);
      if check.Some? {
        r := Invalid(check.value);
        return;
      }
      saving := true;
      var dto := BuildRequest(title, description, dueDate);
      inFlight := Some(dto);
      r := Send(dto);
    }

    /** The rest of `onSave` once the service call settles: navigate back on
        success, alert on failure, and in both cases clear `saving` (the
        `finally` block). The form fields are left for a retry. */
    method Settle(o: ServiceOutcome) returns (e: Effect)
      requires Valid() && saving
      modifies this
      ensures Valid()
      ensures !saving && inFlight == None
      ensures e == SettleEffect(o)
      ensures title == old(title) && description == old(description)
      ensures dueDate == old(dueDate) && pickerVisible == old(pickerVisible)
    {
      match o {
        case Resolved =>
          e := GoBack;
        case Rejected(error) =>
          e := Alert("Error", FailureText(error));
      }
      saving := false;
      inFlight := None;
    }
  }
}
