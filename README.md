# Timesheet entry form

A model of the entry form in the timesheet of a time-tracking web
application. In the form, a user drafts one work-time record: a description
(`body`), an optional task link, a project, a date, and start and end times.
The form works out the record's duration and checks the draft. It posts the
draft to the server. When the server creates the record, the form resets so
that the next entry starts where the last one ended.

The form's state is a class whose handlers update its fields in place
(`EntryComponent.Entry`, in `entry.dfy`). Each handler is tied by its
postcondition to a function from the old draft to the new one (module
`EntryDraft`, in `entry_draft.dfy`). The properties the form promises are
lemmas about those functions. The pure helpers sit in their own modules:

- `Decimal`: digits and zero padding.
- `Clock`: times of day. It reads "HH:mm" text, renders zero-padded
  "HH:MM", adds minutes with wrap-around, and takes differences in
  milliseconds.
- `Calendar`: "DD/MM/YYYY" dates.
- `Validations`: the presence and greater-than checks.

State as the form keeps it:

- Times are text, because the user types them. They are read as minutes
  of the day (0..1439).
- `duration` is a JavaScript number in milliseconds, `NaN`, or `undefined`
  (`Validations.JsNumber`).
- `errors` maps a field name to the check it failed. The source declares it
  as `[]` but uses it as an object.
- Each handler's `setState(…, callback)` chain is one atomic method.
- The submission's HTTP status and the server's echoed record are
  parameters of `OnSubmit`.
- The parent's `pushEntry` callback is modelled as the `pushed` list.

Quirks of the code that the model keeps:

- When the project does not count durations, the duration becomes
  `undefined` (the `_i` of the number 0), not zero.
- The duration is in milliseconds.
- Choosing a project clears the `project_id` error.
- A 422 reply only raises an alert. It leaves `errors` as it was.

## Model

| member | source | states |
|---|---|---|
| Decimal.ParseNumber | app/javascript/components/time_table/timesheet/entry.js:172-173 | a text reads as a number exactly when it is one or two decimal digits; the value is that digit, or ten times the first digit plus the second |
| Decimal.Pad2 | app/javascript/components/time_table/timesheet/entry.js:165-166 | a number below 100 becomes exactly two digits whose decimal value is that number |
| Clock.ParseClock | app/javascript/components/time_table/timesheet/entry.js:172-173 | a text that reads as a valid time has three to five characters, the colon after the first or the second; the digits before it are an hour below 24, those after it a minute below 60, and the time is 60 times the hour plus the minute |
| Clock.ParseClockReads | app/javascript/components/time_table/timesheet/entry.js:172-173 | any one- or two-digit hour below 24, a colon and any one- or two-digit minute below 60 read as that hour and minute |
| Clock.ShortHourNormalised | app/javascript/components/time_table/timesheet/entry.js:172-181 | a typed one-digit hour ("9:30") reads as that time and is re-rendered with two digits ("09:30") |
| Clock.ShortMinuteNormalised | app/javascript/components/time_table/timesheet/entry.js:172-181 | a typed one-digit minute ("09:5") reads as that time and is re-rendered with two digits ("09:05") |
| Clock.FormattedHoursAndMinutes | app/javascript/components/time_table/timesheet/entry.js:162-169 | a valid time renders as five characters, digit-digit-colon-digit-digit; an invalid one as "NaN:NaN" |
| Clock.FormattedHourAndMinute | app/javascript/components/time_table/timesheet/entry.js:162-169 | hour h (0..23) and minute m (0..59) render as h zero-padded, a colon, m zero-padded |
| Clock.ParseFormatted | app/javascript/components/time_table/timesheet/entry.js:162-173 | reading a rendered time back with "HH:mm" gives the same time; "NaN:NaN" stays invalid |
| Clock.FormattedParsed | app/javascript/components/time_table/timesheet/entry.js:172-181 | a five-character text that reads as a valid time is already in rendered form |
| Clock.NormalisePreservesTime | app/javascript/components/time_table/timesheet/entry.js:180-181 | re-rendering the start and end texts does not change the time they denote |
| Clock.AddMinutes | app/javascript/components/time_table/timesheet/entry.js:143 | adding minutes and keeping hours and minutes gives the same clock reading modulo a day, wrapping once past midnight |
| Clock.DiffMs | app/javascript/components/time_table/timesheet/entry.js:175 | the difference is negative exactly when the end is before the start, zero exactly when they are equal, and a whole number of minutes |
| Calendar.FormatDate | app/javascript/components/time_table/timesheet/entry.js:56 | a date renders as ten characters with slashes at positions 2 and 5; the first two digits read as the day, the next two as the month, and the last four as the year (century, then year within the century) |
| Calendar.ParseFormattedDate | app/javascript/components/time_table/timesheet/entry.js:42 | a rendered "DD/MM/YYYY" date reads back as the same date |
| Calendar.FormattedParsedDate | app/javascript/components/time_table/timesheet/entry.js:56 | a text that reads as a date is exactly that date's rendering |
| Validations.Presence | app/javascript/components/time_table/timesheet/entry.js:84-86 | a text passes exactly when it is defined and not empty |
| Validations.PresenceOfId | app/javascript/components/time_table/timesheet/entry.js:87 | a project id passes exactly when it is defined |
| Validations.GreaterThan | app/javascript/components/time_table/timesheet/entry.js:88 | a duration passes exactly when it is a number above the bound; NaN and undefined fail |
| EntryDraft.Initial | app/javascript/components/time_table/timesheet/entry.js:34-44 | a new draft has no errors, equal start and end texts in the five-character "HH:mm" form reading as the current time, today's date, no body, an empty task, the empty project and a zero duration |
| EntryDraft.WithoutErrorFor | app/javascript/components/time_table/timesheet/entry.js:71-75 | removeErrorsFor as a transition; what it keeps is stated by `TransitionsKeepWellFormed` and `Entry.RemoveErrorsFor` |
| EntryDraft.Changed | app/javascript/components/time_table/timesheet/entry.js:46-52 | onChange as a transition; its effect is stated by `ChangedSetsOnlyItsField` |
| EntryDraft.DateChanged | app/javascript/components/time_table/timesheet/entry.js:54-58 | onDateChange as a transition; its effect is stated by `DateChangedSetsOnlyDate` |
| EntryDraft.Pasted | app/javascript/components/time_table/timesheet/entry.js:60-66 | paste as a transition; its effect is stated by `PastedCopiesOnlyEntryFields` |
| EntryDraft.ChangedSetsOnlyItsField | app/javascript/components/time_table/timesheet/entry.js:46-52 | a change event sets exactly the named field, deletes only that field's error, and keeps every other field and error |
| EntryDraft.DateChangedSetsOnlyDate | app/javascript/components/time_table/timesheet/entry.js:54-58 | a date change stores the picked day (it reads back as that day), deletes the date error and keeps everything else |
| EntryDraft.PastedCopiesOnlyEntryFields | app/javascript/components/time_table/timesheet/entry.js:60-66 | paste overwrites body, task, project and project id (with the project's id), possibly with undefined, and keeps times, date, duration and errors |
| EntryDraft.Checks | app/javascript/components/time_table/timesheet/entry.js:82-88 | the outcome of each validated field's check; which outcomes fail is stated by `ValidationReportsFailingChecks` |
| EntryDraft.DefinedOutcomes | app/javascript/components/time_table/timesheet/entry.js:90 | keeps exactly the failed outcomes; `DeleteUndefined` is proved to compute it |
| EntryDraft.ValidationErrors | app/javascript/components/time_table/timesheet/entry.js:77-93 | validate as a function of the draft; stated by `SpecialProjectsSkipValidation` and `ValidationReportsFailingChecks` |
| EntryDraft.SpecialProjectsSkipValidation | app/javascript/components/time_table/timesheet/entry.js:78-81 | for a lunch or autofill project validation reports nothing, whatever the fields hold |
| EntryDraft.ValidationReportsFailingChecks | app/javascript/components/time_table/timesheet/entry.js:82-91 | for other projects the keys lie among body, starts_at, ends_at, project_id and duration, and each key is present exactly when its check fails |
| EntryDraft.TypedBodyPassesValidation | app/javascript/components/time_table/timesheet/entry.js:46-52 | after typing a non-empty body, validation reports no body error |
| EntryDraft.Later | app/javascript/components/time_table/timesheet/entry.js:143 | shifting a time keeps a valid time valid and an invalid one invalid |
| EntryDraft.CountedDuration | app/javascript/components/time_table/timesheet/entry.js:175-178 | without duration counting the duration is undefined; with it, end minus start in milliseconds, or NaN when a time is invalid |
| EntryDraft.Recounted | app/javascript/components/time_table/timesheet/entry.js:171-185 | recountTime as a transition; stated by `RecountedState` and `RecountedIdempotent` |
| EntryDraft.RecountedState | app/javascript/components/time_table/timesheet/entry.js:171-184 | recounting keeps the meaning of both times, renders each valid one in five characters and each invalid one as "NaN:NaN", sets the duration counted from the two times, deletes only the duration error, and changes nothing else |
| EntryDraft.RecountedNegativeWhenEndBeforeStart | app/javascript/components/time_table/timesheet/entry.js:175 | with counting and valid times the duration is negative exactly when the end is before the start |
| EntryDraft.RecountedWorkingDay | app/javascript/components/time_table/timesheet/entry.js:171-178 | 09:00 to 17:00 counts 28 800 000 milliseconds |
| EntryDraft.RecountedIdempotent | app/javascript/components/time_table/timesheet/entry.js:171-184 | recounting a recounted draft changes nothing |
| EntryDraft.WorkingDayClock | app/javascript/components/time_table/timesheet/entry.js:147-148 | "09:00" reads as 9 o'clock, and 9 o'clock plus eight hours renders as "17:00" |
| EntryDraft.ProjectTimes | app/javascript/components/time_table/timesheet/entry.js:139-150 | the times a chosen project imposes; stated by `ProjectTimesRules` |
| EntryDraft.ProjectUpdated | app/javascript/components/time_table/timesheet/entry.js:138-160 | updateProject as a transition; stated by `ProjectUpdatedState`, `LunchDuration` and `AutofillWorkingDay` |
| EntryDraft.ProjectTimesRules | app/javascript/components/time_table/timesheet/entry.js:138-150 | lunch (checked first) keeps the start and ends thirty minutes later modulo a day; autofill sets 09:00 to 17:00; other projects keep both times |
| EntryDraft.ProjectUpdatedState | app/javascript/components/time_table/timesheet/entry.js:152-159 | after choosing a project: project and project id are the new project's; a lunch keeps the start time and ends thirty minutes later modulo a day; an autofill project runs from "09:00" to "17:00"; any other project keeps the time of both texts. Only the project_id and duration errors are deleted, the duration is recomputed from the new times, and body, task and date are kept |
| EntryDraft.LunchDuration | app/javascript/components/time_table/timesheet/entry.js:141-144 | a counted lunch lasts 30 minutes, except one starting at 23:30 or later, whose end wraps past midnight and whose duration is negative |
| EntryDraft.AutofillWorkingDay | app/javascript/components/time_table/timesheet/entry.js:145-149 | an autofill project yields 09:00 to 17:00 and a duration of 28 800 000 ms when counted, undefined otherwise |
| EntryDraft.ReplyTo | app/javascript/components/time_table/timesheet/entry.js:117-132 | status 200 means created, 422 means rejected, anything else means failed |
| EntryDraft.Notice | app/javascript/components/time_table/timesheet/entry.js:128-132 | a created entry raises no alert; rejected and failed replies raise their alerts |
| EntryDraft.ActingUser | app/javascript/components/time_table/timesheet/entry.js:97 | a non-empty user_id query parameter takes precedence over the signed-in user |
| EntryDraft.Request | app/javascript/components/time_table/timesheet/entry.js:102-110 | the posted work time: acting user, body, task, project id, date and both times; its use is stated by `SpecialProjectsAlwaysSent` |
| EntryDraft.SubmissionOf | app/javascript/components/time_table/timesheet/entry.js:95-133 | blocked by local errors or sent with the request and the reply; stated by `SpecialProjectsAlwaysSent` and `Entry.OnSubmit` |
| EntryDraft.Submitted | app/javascript/components/time_table/timesheet/entry.js:95-133 | the draft after a submission; stated by `SubmittedState` and `CreatedDraftNeedsBody` |
| EntryDraft.SubmittedState | app/javascript/components/time_table/timesheet/entry.js:95-133 | local errors block the request and replace only the errors; on 200 the start becomes the old end, duration 0, body and task empty, and the rest is kept; any other status leaves the draft unchanged |
| EntryDraft.SpecialProjectsAlwaysSent | app/javascript/components/time_table/timesheet/entry.js:80-81 | a lunch or autofill draft is always posted |
| EntryDraft.CreatedDraftNeedsBody | app/javascript/components/time_table/timesheet/entry.js:118-126 | after a created entry on an ordinary project, the reset draft fails the body check |
| EntryDraft.TransitionsKeepWellFormed | app/javascript/components/time_table/timesheet/entry.js:71-75 | every handler keeps the error keys among the validated fields, so date and task errors never occur |
| EntryComponent.Entry.constructor | app/javascript/components/time_table/timesheet/entry.js:34-44 | the new form's state is the initial draft and nothing has been pushed |
| EntryComponent.Entry.RemoveErrorsFor | app/javascript/components/time_table/timesheet/entry.js:71-75 | deletes the named key from the errors in place and changes no other field |
| EntryComponent.Entry.OnChange | app/javascript/components/time_table/timesheet/entry.js:46-52 | the new state is the old one with the input's field set and its error deleted |
| EntryComponent.Entry.OnDateChange | app/javascript/components/time_table/timesheet/entry.js:54-58 | the new state is the old one with the rendered date and without the date error |
| EntryComponent.Entry.Paste | app/javascript/components/time_table/timesheet/entry.js:60-69 | the new state is the old one with the copied body, task, project and project id |
| EntryComponent.Entry.Validate | app/javascript/components/time_table/timesheet/entry.js:77-93 | the map the handler returns is exactly the validation errors of the current state |
| EntryComponent.DeleteUndefined | app/javascript/components/time_table/timesheet/entry.js:90 | deleting the passed checks' keys leaves exactly the failed checks, with their outcomes |
| EntryComponent.Entry.OnSubmit | app/javascript/components/time_table/timesheet/entry.js:95-136 | the outcome is blocked (with the errors) or sent (with the request and the reply); the state is the submitted draft; the server's record is pushed only on 200 |
| EntryComponent.Entry.UpdateProject | app/javascript/components/time_table/timesheet/entry.js:138-160 | the new state is the old one with the project's times, the project, its id, no project_id error, then recounted |
| EntryComponent.Entry.RecountTime | app/javascript/components/time_table/timesheet/entry.js:171-185 | the new state is the recounted old state |

## Left out

- Rendering, `onFocus`, the easter-egg picture (randomness and the day of
  the week), whether the task-link input is shown, and the alert pop-ups themselves
  are UI. `Notice` names the alert text a reply would raise.
- `durationHours` is left out. It is a display string computed with
  time-zone-dependent date arithmetic and a fixed one-hour offset.
- The project dropdown's `assignProject` call after a paste is left out.
  It acts on a child component.
- The network request is left out. `OnSubmit` receives the reply's status
  and the server's record as parameters. The request itself is only
  returned (`Submission.Sent`).
- The payload's combined date-and-time timestamps are left out. They come
  from the date library. The request carries the date and the two time
  texts separately.
- `ParseClock` accepts one or two digits of hours, a colon, and one or two
  digits of minutes. The date library's lenient parser accepts more:
  missing colons, trailing text, and "24:00". Those forms count as invalid
  here, so they render as "NaN:NaN".
- Days on which daylight-saving time changes are not modelled. On those
  days the date library gives different results in three places. `DiffMs`
  across the change is an hour off. The lunch rule's `AddMinutes` across
  the change lands an hour off. Re-rendering a time in the skipped hour
  shifts it. The model treats every day as 1440 even minutes.
- The validation helpers' own code is not part of this model. `Presence`
  treats any defined non-empty text as present, including whitespace.
  `PresenceOfId` treats any defined id as present.
- Message texts of validation errors are not modelled. A failed check is
  recorded as `Blank` or `NotGreaterThan(0)`.
- `Calendar.FormatDate` covers years 0 to 9999, which the date picker
  supplies. Five-digit years are not modelled.
- The timesheet container and the entry history are left out, including
  fetching projects. The container pastes into this core in two ways:
  `onCopy` pastes a whole history entry (body, task and project), and
  `setLastProject` pastes a bare project. Both go through `Paste`, and
  `Copied` allows an undefined body and task for the second. The container
  receives created records through `pushEntry`, modelled as `pushed`.
- The backend projects controller is left out. It is framework and
  database code.
- A second submission made before the first reply returns is not modelled.
  Each submission is one atomic step.
