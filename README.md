# Create-task form controller, modelled in Dafny

This project models the create-task screen of a React Native task app
(`app/tasks/createTasks.tsx`). The screen keeps five pieces of state: the
title, the description, an optional due date, whether the date picker is
showing, and whether a save is in progress. It offers these handlers:

- title and description setters;
- opening the date picker, whose effect defaults an unset due date to "now";
- the picker's change callback;
- `onSave`.

`onSave` works in this order:

1. It refuses a title that is empty after trimming.
2. It refuses a due date whose local calendar day is strictly before today's.
3. It sets `saving`.
4. It builds a trimmed `CreateTaskDTO`.
5. It awaits the task service. On success it navigates back. On failure it shows an alert.
6. It always clears `saving`.

The model has four modules:

- `Text` (`text.dfy`): `String.prototype.trim` over the ECMAScript whitespace
  and line-terminator characters. There is a characterisation (`StrippedAt`,
  `Tight`), a proof that `Trim` is the unique such stripping, the
  "empty iff blank" test, and idempotence.
- `Dates` (`dates.dfy`): a `Date` as its epoch-millisecond time value. It has
  `setHours(0, 0, 0, 0)` as `LocalMidnight` under a fixed UTC offset, the local
  calendar day `DayOf`, and a proof that comparing truncated dates
  (`sel < today`) means comparing days. `toISOString()` is `ToIso`.
- `CreateTask` (`create_task.dfy`): the DTO, validation errors, service
  outcomes and screen effects as datatypes. It has the pure specification of
  `onSave`'s synchronous part (`Submission`) and of its continuation
  (`SettleEffect`), with lemmas about both. The class `FormController` holds the
  five `useState` fields as mutable fields, with one method per handler.
  `inFlight` is a ghost field that stands for the awaited `createTask` promise.
  `Valid()` says three things:
  - the picker never shows without a date;
  - `saving` holds exactly while a request is outstanding;
  - an outstanding request has a non-empty, trimmed title.
- `Scenarios` (`scenarios.dfy`): client methods that drive one `FormController`
  through whole attempts using only the handlers' contracts.

The awaited `createTask(dto)` is split into two transitions:

- `Submit(now, offsetMs)` runs validation, sets `saving` and returns the
  request handed to the service, or the validation error.
- `Settle(outcome)` receives how the service call ended. It returns `GoBack`
  or `Alert(heading, text)` and clears `saving`.

The clock (`new Date()`) is the `now` parameter. The local time zone is the
`offsetMs` parameter.

In three places the code behaves differently from what a reader might expect, and the model follows the code:

- The failure alert uses `error.message` whenever the thrown value is an
  `Error` instance, even if that message is empty. It falls back to
  "Failed to create task" only for thrown values that are not `Error`s. It
  does not fall back whenever a message is missing.
- An empty description is sent as `""`, not left out of the request.
- The stored due date is a full instant with its time of day, not a bare
  calendar date. Only the validation truncates it.

## Model

| member | source | states |
|---|---|---|
| `Text.Trim` | app/tasks/createTasks.tsx:51-52 | `trim()` returns a contiguous slice of its input. Every character removed is whitespace, and the result has no whitespace at either end. |
| `Text.TrimEmptyIffBlank` | app/tasks/createTasks.tsx:32 | The trimmed title is empty (so `!title.trim()` holds) exactly when the title is empty or all whitespace. |
| `Text.TrimUnique` | app/tasks/createTasks.tsx:51-52 | Any whitespace-only stripping of `s` that leaves no edge whitespace equals `Trim(s)`. This pins `trim()` down completely. |
| `Text.TrimTight` | app/tasks/createTasks.tsx:51-52 | A text with no whitespace at either end trims to itself. |
| `Text.TrimIdempotent` | app/tasks/createTasks.tsx:51-52 | Trimming an already trimmed text changes nothing. |
| `Dates.DayOf` | app/tasks/createTasks.tsx:38-41 | The local calendar day of an instant is the day whose local 24-hour span, under the fixed offset, contains it. |
| `Dates.LocalMidnight` | app/tasks/createTasks.tsx:38-41 | `setHours(0,0,0,0)` gives the latest local midnight not after the instant: within one day before it, and on a whole local day boundary. |
| `Dates.MidnightOrder` | app/tasks/createTasks.tsx:38-42 | `sel < today` on the truncated dates holds exactly when the due date's local calendar day is strictly before today's. |
| `Dates.SameDaySameMidnight` | app/tasks/createTasks.tsx:42 | Two instants on the same local day truncate to the same midnight, so the strict comparison lets a same-day due date pass. |
| `Dates.DayBefore` | app/tasks/createTasks.tsx:38-42 | An instant exactly one day earlier lies on the previous local day. |
| `Dates.ToIso` | app/tasks/createTasks.tsx:54 | The serialised due date denotes exactly the instant of the stored date. |
| `CreateTask.ValidationAlert` | app/tasks/createTasks.tsx:33-43 | Every validation failure is alerted under the heading "Validation". "Title is required" is shown exactly for the title error, and "Due date cannot be in the past" exactly for the date error. |
| `CreateTask.Validate` | app/tasks/createTasks.tsx:32-46 | The result is the title error exactly when the title is blank, whatever the date. It is the date error exactly when the title is usable and a due date is set on a local day strictly before today's. |
| `CreateTask.Submission` | app/tasks/createTasks.tsx:31-55 | A request goes out only with a non-empty title without edge whitespace, and a description without edge whitespace. |
| `CreateTask.BlankTitleRejected` | app/tasks/createTasks.tsx:32-35 | The result is "Title is required" exactly when the title is empty or whitespace-only, whatever the due date. So the title check comes first. |
| `CreateTask.PastDueDateRejected` | app/tasks/createTasks.tsx:37-46 | With a usable title, the result is "Due date cannot be in the past" exactly when a due date is set and its local day is strictly before today's. |
| `CreateTask.SendIffValid` | app/tasks/createTasks.tsx:32-48 | A request is sent exactly when the title is not blank and the due date is absent or on today or later. A same-day date passes. |
| `CreateTask.SameDayAccepted` | app/tasks/createTasks.tsx:42 | With a usable title, a due date on the same local day as now is sent, because the truncated dates are equal and the comparison is strict. |
| `CreateTask.RequestFields` | app/tasks/createTasks.tsx:50-55 | The request carries `Trim(title)` and `Trim(description)`. Its due date is `ToIso(d)` when the form holds `Some(d)` and is absent otherwise. Both texts are already trimmed, so trimming them again changes nothing. |
| `CreateTask.SettleEffect` | app/tasks/createTasks.tsx:56-59 | Navigation back happens exactly on success. A failure always alerts under "Error": a thrown `Error` shows its own message, and any other thrown value shows "Failed to create task". |
| `CreateTask.FormController.constructor` | app/tasks/createTasks.tsx:18-22 | A fresh screen has empty title and description, no due date, the picker hidden and `saving` false. |
| `CreateTask.FormController.SetTitle` | app/tasks/createTasks.tsx:76 | Replaces the title without validation and changes nothing else. |
| `CreateTask.FormController.SetDescription` | app/tasks/createTasks.tsx:84 | Replaces the description without validation and changes nothing else. |
| `CreateTask.FormController.OpenPicker` | app/tasks/createTasks.tsx:25-29 | Shows the picker. It sets the due date to `now` only when none was set, so an existing date is never overwritten. |
| `CreateTask.FormController.OnDatePicked` | app/tasks/createTasks.tsx:104-107 | Always hides the picker. It replaces the due date only when a date is delivered, so a cancel keeps the old or just-defaulted date. |
| `CreateTask.FormController.Submit` | app/tasks/createTasks.tsx:31-56 | Only while not saving. The result equals `Submission` of the form. `saving` becomes true exactly when a request is sent, and that request becomes the outstanding one. The form fields are unchanged. |
| `CreateTask.FormController.Settle` | app/tasks/createTasks.tsx:56-62 | After either outcome `saving` is false and nothing is outstanding. The effect is `SettleEffect(outcome)`. Title, description, due date and picker are unchanged. |
| `Scenarios.SubmitTitleOnly` | app/tasks/createTasks.tsx:48-57 | Title "Buy milk" alone: the service receives `{title: "Buy milk", description: ""}` with no due date, and success navigates back. |
| `Scenarios.BlankTitleWithFutureDate` | app/tasks/createTasks.tsx:32-35 | Title "  " with tomorrow's date gives the "Title is required" alert, and nothing is sent. |
| `Scenarios.DueYesterday` | app/tasks/createTasks.tsx:37-45 | A valid title with yesterday's date gives the "Due date cannot be in the past" alert, and nothing is sent. |
| `Scenarios.FailedSubmitThenRetry` | app/tasks/createTasks.tsx:25-62 | Opening the picker and cancelling keeps the defaulted "today", which passes validation. A rejection alerts "network down", clears `saving` and keeps the form, so a retry sends the same request. |

## Left out

- Rendering: the JSX layout, styling classes, the `KeyboardAvoidingView` and
  `Platform` branch, the spinner, and the due-date label built with
  `toLocaleDateString()`. None of them affects the state.
- The `DateTimePicker` widget, including its `value` and `minimumDate` props.
  Only the callback it invokes is modelled, as `OnDatePicked`.
- `createTask` in `@/services/TaskService`. The service is not part of this
  model. Its outcome is the parameter of `Settle`.
- `router.back()` and `Alert.alert`. They are the returned `Effect` values.
- `Dates.DayOf`: the local time zone is one fixed UTC offset. Daylight-saving
  changes, where the offset differs between the due date and now, are not
  modelled.
- `Dates.ToIso`: the "YYYY-MM-DDTHH:mm:ss.sssZ" text is not rendered. The
  model keeps the instant the text denotes. The `RangeError` that
  `toISOString()` throws for an invalid `Date` is not modelled, because
  `new Date()` and the picker only deliver valid dates.
- React scheduling. The render between `setShowDatePicker(true)` and the
  effect is not a separate step: `OpenPicker` performs both. Effect dependency
  arrays and re-render timing are not modelled. Neither is what happens to an
  in-flight call when the screen unmounts.
- The disabled submit button (`disabled={saving}`) is the precondition
  `!saving` of `Submit`, not a rendered property.
