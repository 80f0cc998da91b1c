/** The draft a timesheet entry form holds, and what each of the form's
    event handlers makes of it, as functions from the old draft to the new.
    The class in entry.dfy changes its fields as these functions say. */
module EntryDraft {
  import opened Wrappers
  import opened Decimal
  import opened Clock
  import opened Calendar
  import opened Validations

  /** The part of a project the form looks at. The empty project `{}` the
      form starts with has no id and no flag set. */
  datatype Project = Project(id: Option<int>, lunch: bool, autofill: bool, countDuration: bool)

  const NoProject: Project := Project(None, false, false, false)

  /** The names under which the form keeps values and errors. */
  datatype Field = Body | Task | StartsAt | EndsAt | ProjectId | Duration | Date

  /** The inputs whose change events carry their own name. */
  const InputFields: set<Field> := {Body, Task, StartsAt, EndsAt}

  /** The fields validation checks, in the order it checks them. */
  const ValidatedOrder: seq<Field> := [Body, StartsAt, EndsAt, ProjectId, Duration]
  const ValidatedFields: set<Field> := set f | f in ValidatedOrder

  /** The form's state. `duration` is in milliseconds; `errors` maps a field
      to what its check reported. */
  datatype Draft = Draft(
    body: Option<string>,
    task: Option<string>,
    project: Project,
    projectId: Option<int>,
    startsAt: string,
    endsAt: string,
    duration: JsNumber,
    date: string,
    errors: map<Field, Violation>)

  /** Errors only ever come from validation, so they sit under validated fields. */
  predicate WellFormed(d: Draft) {
    d.errors.Keys <= ValidatedFields
  }

  /** The state a new form starts in at clock time `now` on day `today`. */
  function Initial(now: Minute, today: CalendarDate): (d: Draft)
    requires ValidDate(today)
    ensures WellFormed(d) && d.errors == map[]
    ensures ParseClock(d.startsAt) == Some(now) && |d.startsAt| == 5 && d.endsAt == d.startsAt
    ensures ParseDate(d.date) == Some(today)
    ensures d.body.None? && d.task == Some("") && d.project == NoProject && d.projectId.None?
    ensures d.duration == Num(0)
  {
    ParseFormatted(Some(now));
    ParseFormattedDate(today);
    var clock := FormattedHoursAndMinutes(Some(now));
    Draft(None, Some(""), NoProject, None, clock, clock, Num(0), FormatDate(today), map[])
  }

  // ---------------------------------------------------------------------
  // Field edits

  /** removeErrorsFor: drop one field's entry from the errors. */
  function WithoutErrorFor(d: Draft, name: Field): Draft {
    d.(errors := d.errors - {name})
  }

  /** onChange: set the input's field to its text, then clear its error. */
  function Changed(d: Draft, name: Field, value: string): Draft
    requires name in InputFields
  {
    var e :=
      if name == Body then d.(body := Some(value))
      else if name == Task then d.(task := Some(value))
      else if name == StartsAt then d.(startsAt := value)
      else d.(endsAt := value);
    WithoutErrorFor(e, name)
  }

  /** onDateChange: keep the picked day as "DD/MM/YYYY", then clear the date error. */
  function DateChanged(d: Draft, day: CalendarDate): Draft
    requires ValidDate(day)
  {
    WithoutErrorFor(d.(date := FormatDate(day)), Date)
  }

  /** The part of another entry that paste copies; a bare project leaves
      body and task undefined. */
  datatype Copied = Copied(body: Option<string>, task: Option<string>, project: Project)

  /** paste: take body, task and project (and the project's id) from another entry. */
  function Pasted(d: Draft, src: Copied): Draft {
    d.(body := src.body, project := src.project, projectId := src.project.id, task := src.task)
  }

  lemma ChangedSetsOnlyItsField(d: Draft, name: Field, value: string)
    requires name in InputFields
    ensures var r := Changed(d, name, value);
      && r.body == (if name == Body then Some(value) else d.body)
      && r.task == (if name == Task then Some(value) else d.task)
      && r.startsAt == (if name == StartsAt then value else d.startsAt)
      && r.endsAt == (if name == EndsAt then value else d.endsAt)
      && r.project == d.project && r.projectId == d.projectId
      && r.duration == d.duration && r.date == d.date
      && name !in r.errors
      && (forall f :: f != name ==> (f in r.errors <==> f in d.errors))
      && (forall f :: f in r.errors ==> r.errors[f] == d.errors[f])
  {
  }

  lemma DateChangedSetsOnlyDate(d: Draft, day: CalendarDate)
    requires ValidDate(day)
    ensures var r := DateChanged(d, day);
      && ParseDate(r.date) == Some(day)
      && r.(date := d.date, errors := d.errors) == d
      && r.errors == d.errors - {Date}
  {
    ParseFormattedDate(day);
  }

  lemma PastedCopiesOnlyEntryFields(d: Draft, src: Copied)
    ensures var r := Pasted(d, src);
      && r.body == src.body && r.task == src.task
      && r.project == src.project && r.projectId == src.project.id
      && r.startsAt == d.startsAt && r.endsAt == d.endsAt
      && r.date == d.date && r.duration == d.duration && r.errors == d.errors
  {
  }

  // ---------------------------------------------------------------------
  // Validation

  /** The outcome of one field's check, None when it passes. */
  function Check(d: Draft, f: Field): Option<Violation>
    requires f in ValidatedFields
  {
    match f
    case Body => Presence(d.body)
    case StartsAt => Presence(Some(d.startsAt))
    case EndsAt => Presence(Some(d.endsAt))
    case ProjectId => PresenceOfId(d.projectId)
    case Duration => GreaterThan(0, d.duration)
  }

  /** Every validated field's outcome, passed (None) or not. */
  function Checks(d: Draft): map<Field, Option<Violation>> {
    map f | f in ValidatedFields :: Check(d, f)
  }

  /** The outcomes that are defined, that is the failed checks. */
  function DefinedOutcomes(outcomes: map<Field, Option<Violation>>): map<Field, Violation> {
    map f | f in outcomes && outcomes[f].Some? :: outcomes[f].value
  }

  /** validate: nothing for lunch and autofill projects; otherwise the
      failing checks, and only those, under their field names. */
  function ValidationErrors(d: Draft): map<Field, Violation> {
    if d.project.lunch || d.project.autofill then map[]
    else DefinedOutcomes(Checks(d))
  }

  lemma SpecialProjectsSkipValidation(d: Draft)
    requires d.project.lunch || d.project.autofill
    ensures ValidationErrors(d) == map[]
  {
  }

  /** For other projects a key is reported exactly when its check fails. */
  lemma ValidationReportsFailingChecks(d: Draft)
    requires !d.project.lunch && !d.project.autofill
    ensures var errs := ValidationErrors(d);
      && errs.Keys <= ValidatedFields
      && (Body in errs <==> d.body.None? || d.body.value == "")
      && (StartsAt in errs <==> d.startsAt == "")
      && (EndsAt in errs <==> d.endsAt == "")
      && (ProjectId in errs <==> d.projectId.None?)
      && (Duration in errs <==> !(d.duration.Num? && d.duration.value > 0))
      && (forall f :: f in errs ==> errs[f] == (if f == Duration then NotGreaterThan(0) else Blank))
  {
    var errs := ValidationErrors(d);
    assert forall f :: f in errs <==> f in ValidatedFields && Check(d, f).Some?;
    assert Body in errs <==> Check(d, Body).Some?;
    assert StartsAt in errs <==> Check(d, StartsAt).Some?;
    assert EndsAt in errs <==> Check(d, EndsAt).Some?;
    assert ProjectId in errs <==> Check(d, ProjectId).Some?;
    assert Duration in errs <==> Check(d, Duration).Some?;
  }

  /** Typing a body is enough to silence the body check. */
  lemma TypedBodyPassesValidation(d: Draft, value: string)
    requires value != ""
    ensures Body !in ValidationErrors(Changed(d, Body, value))
  {
  }

  // ---------------------------------------------------------------------
  // Recounting the duration

  /** A time moved forward by some minutes; an invalid time stays invalid. */
  function Later(t: Option<Minute>, delta: nat): (r: Option<Minute>)
    ensures r.Some? <==> t.Some?
  {
    match t
    case Some(m) => Some(AddMinutes(m, delta))
    case None => None
  }

  /** What recountTime stores as the duration: the milliseconds from start
      to end when the project counts durations, NaN when a time is
      invalid, and undefined when the project does not count. */
  function CountedDuration(p: Project, start: Option<Minute>, end: Option<Minute>): (r: JsNumber)
    ensures !p.countDuration <==> r == Undefined
    ensures p.countDuration && start.Some? && end.Some? ==> r == Num((end.value - start.value) * MsPerMinute)
    ensures p.countDuration && (start.None? || end.None?) ==> r == NaN
  {
    if !p.countDuration then Undefined
    else if start.Some? && end.Some? then Num(DiffMs(start.value, end.value))
    else NaN
  }

  /** recountTime: recompute the duration, re-render both times, clear the
      duration error. */
  function Recounted(d: Draft): Draft {
    var start, end := ParseClock(d.startsAt), ParseClock(d.endsAt);
    WithoutErrorFor(
      d.(duration := CountedDuration(d.project, start, end),
         startsAt := FormattedHoursAndMinutes(start),
         endsAt := FormattedHoursAndMinutes(end)),
      Duration)
  }

  lemma RecountedState(d: Draft)
    ensures var r := Recounted(d);
      && ParseClock(r.startsAt) == ParseClock(d.startsAt)
      && ParseClock(r.endsAt) == ParseClock(d.endsAt)
      && (ParseClock(d.startsAt).Some? ==> |r.startsAt| == 5)
      && (ParseClock(d.startsAt).None? ==> r.startsAt == "NaN:NaN")
      && (ParseClock(d.endsAt).Some? ==> |r.endsAt| == 5)
      && (ParseClock(d.endsAt).None? ==> r.endsAt == "NaN:NaN")
      && r.duration == CountedDuration(d.project, ParseClock(d.startsAt), ParseClock(d.endsAt))
      && r.errors == d.errors - {Duration}
      && r.(duration := d.duration, startsAt := d.startsAt, endsAt := d.endsAt, errors := d.errors) == d
  {
    NormalisePreservesTime(d.startsAt);
    NormalisePreservesTime(d.endsAt);
  }

  /** An end before the start gives a negative duration: nothing wraps it. */
  lemma RecountedNegativeWhenEndBeforeStart(d: Draft)
    requires d.project.countDuration
    requires ParseClock(d.startsAt).Some? && ParseClock(d.endsAt).Some?
    ensures var r := Recounted(d).duration;
      && r.Num?
      && (r.value < 0 <==> ParseClock(d.endsAt).value < ParseClock(d.startsAt).value)
  {
  }

  /** A full working day counts 28 800 000 milliseconds. */
  lemma RecountedWorkingDay(d: Draft)
    requires d.project.countDuration && d.startsAt == "09:00" && d.endsAt == "17:00"
    ensures Recounted(d).duration == Num(28800000)
  {
    WorkingDayClock();
    assert Recounted(d).duration == CountedDuration(d.project, Some(540), Some(1020));
  }

  /** "09:00" and "17:00" read as 9 and 17 hours, and render back as themselves. */
  lemma WorkingDayClock()
    ensures ParseClock("09:00") == Some(540) && FormattedHoursAndMinutes(Some(540)) == "09:00"
    ensures ParseClock("17:00") == Some(1020) && FormattedHoursAndMinutes(Some(1020)) == "17:00"
  {
    FormattedHourAndMinute(9, 0);
    assert Pad2(9) == "09" && Pad2(0) == "00";
    ParseFormatted(Some(540));
    FormattedHourAndMinute(17, 0);
    assert Pad2(17) == "17";
    ParseFormatted(Some(1020));
  }

  /** Recounting twice is recounting once. */
  lemma RecountedIdempotent(d: Draft)
    ensures Recounted(Recounted(d)) == Recounted(d)
  {
    NormalisePreservesTime(d.startsAt);
    NormalisePreservesTime(d.endsAt);
  }

  // ---------------------------------------------------------------------
  // Choosing a project

  /** The times a chosen project imposes, as (starts_at, ends_at): a lunch
      ends thirty minutes after it starts, an autofill project runs from
      09:00 for eight hours, any other project keeps the times. */
  function ProjectTimes(p: Project, startsAt: string, endsAt: string): (string, string) {
    if p.lunch then (startsAt, FormattedHoursAndMinutes(Later(ParseClock(startsAt), 30)))
    else if p.autofill then ("09:00", FormattedHoursAndMinutes(Later(ParseClock("09:00"), 8 * 60)))
    else (startsAt, endsAt)
  }

  /** updateProject: apply the project's times, take the project and its id,
      clear the project error, then recount. */
  function ProjectUpdated(d: Draft, p: Project): Draft {
    var times := ProjectTimes(p, d.startsAt, d.endsAt);
    Recounted(WithoutErrorFor(d.(startsAt := times.0, endsAt := times.1, project := p, projectId := p.id), ProjectId))
  }


  lemma ProjectTimesRules(p: Project, startsAt: string, endsAt: string)
    ensures var (s, e) := ProjectTimes(p, startsAt, endsAt);
      && (p.lunch ==> s == startsAt && ParseClock(e) == Later(ParseClock(startsAt), 30))
      && (!p.lunch && p.autofill ==> s == "09:00" && e == "17:00")
      && (!p.lunch && !p.autofill ==> s == startsAt && e == endsAt)
  {
    ParseFormatted(Later(ParseClock(startsAt), 30));
    WorkingDayClock();
  }

  lemma ProjectUpdatedState(d: Draft, p: Project)
    ensures var r := ProjectUpdated(d, p);
      && r.project == p && r.projectId == p.id
      && ProjectId !in r.errors && Duration !in r.errors
      && r.errors == d.errors - {ProjectId, Duration}
      && r.duration == CountedDuration(p, ParseClock(r.startsAt), ParseClock(r.endsAt))
      && r.body == d.body && r.task == d.task && r.date == d.date
      && (p.lunch ==>
            ParseClock(r.startsAt) == ParseClock(d.startsAt) && ParseClock(r.endsAt) == Later(ParseClock(d.startsAt), 30))
      && (!p.lunch && p.autofill ==> r.startsAt == "09:00" && r.endsAt == "17:00")
      && (!p.lunch && !p.autofill ==>
            ParseClock(r.startsAt) == ParseClock(d.startsAt) && ParseClock(r.endsAt) == ParseClock(d.endsAt))
  {
    var times := ProjectTimes(p, d.startsAt, d.endsAt);
    var e := WithoutErrorFor(d.(startsAt := times.0, endsAt := times.1, project := p, projectId := p.id), ProjectId);
    var r := Recounted(e);
    assert r == ProjectUpdated(d, p);
    RecountedState(e);
    assert ParseClock(r.startsAt) == ParseClock(times.0) && ParseClock(r.endsAt) == ParseClock(times.1);
    ProjectTimesRules(p, d.startsAt, d.endsAt);
    if !p.lunch && p.autofill {
      WorkingDayClock();
      assert r.startsAt == FormattedHoursAndMinutes(ParseClock("09:00"));
      assert r.endsAt == FormattedHoursAndMinutes(ParseClock("17:00"));
    }
  }

  /** A lunch counts thirty minutes, except one starting in the last half
      hour of the day, whose end wraps past midnight and whose duration
      comes out negative. */
  lemma LunchDuration(d: Draft, p: Project, start: Minute)
    requires p.lunch && p.countDuration && ParseClock(d.startsAt) == Some(start)
    ensures ProjectUpdated(d, p).duration ==
      Num(if start + 30 < MinutesPerDay then 30 * MsPerMinute else (30 - MinutesPerDay) * MsPerMinute)
  {
    var end := AddMinutes(start, 30);
    ParseFormatted(Some(end));
    var e := WithoutErrorFor(d.(endsAt := FormattedHoursAndMinutes(Some(end)), project := p, projectId := p.id), ProjectId);
    assert ProjectUpdated(d, p) == Recounted(e);
    assert Recounted(e).duration == Num(DiffMs(start, end));
    assert end - start == if start + 30 < MinutesPerDay then 30 else 30 - MinutesPerDay;
  }

  lemma AutofillWorkingDay(d: Draft, p: Project)
    requires !p.lunch && p.autofill
    ensures var r := ProjectUpdated(d, p);
      && r.startsAt == "09:00" && r.endsAt == "17:00"
      && r.duration == (if p.countDuration then Num(28800000) else Undefined)
  {
    WorkingDayClock();
    ParseFormatted(Some(1020));
  }

  // ---------------------------------------------------------------------
  // Submitting

  /** How the form reads the response status. */
  datatype Reply = Created | Rejected | Failed

  function ReplyTo(status: int): (r: Reply)
    ensures r == Created <==> status == 200
    ensures r == Rejected <==> status == 422
  {
    if status == 200 then Created else if status == 422 then Rejected else Failed
  }

  /** The alert a reply raises. */
  function Notice(r: Reply): (text: Option<string>)
    ensures text.None? <==> r == Created
  {
    match r
    case Created => None
    case Rejected => Some("There was an error while trying to add work time")
    case Failed => Some("Internal server error")
  }

  /** The acting user: the `user_id` query parameter when it is given and
      not empty, the signed-in user otherwise. */
  function ActingUser(query: map<string, string>, currentUserId: string): (id: string)
    ensures "user_id" in query && query["user_id"] != "" ==> id == query["user_id"]
    ensures "user_id" !in query || query["user_id"] == "" ==> id == currentUserId
  {
    if "user_id" in query && query["user_id"] != "" then query["user_id"] else currentUserId
  }

  /** The work time posted for a draft. The project id is the selected
      project's own id. */
  datatype WorkTime = WorkTime(
    userId: string,
    body: Option<string>,
    task: Option<string>,
    projectId: Option<int>,
    date: string,
    startsAt: string,
    endsAt: string)

  function Request(d: Draft, userId: string): WorkTime {
    WorkTime(userId, d.body, d.task, d.project.id, d.date, d.startsAt, d.endsAt)
  }

  /** What a submission attempt does: stop at local errors, or send a request
      and receive a reply. */
  datatype Submission = Blocked(errors: map<Field, Violation>) | Sent(request: WorkTime, reply: Reply)

  function SubmissionOf(d: Draft, userId: string, status: int): Submission {
    var errs := ValidationErrors(d);
    if errs != map[] then Blocked(errs) else Sent(Request(d, userId), ReplyTo(status))
  }

  /** The draft after a submission attempt: errors shown, or after a created
      entry a fresh draft that starts where the last one ended. */
  function Submitted(d: Draft, userId: string, status: int): Draft {
    match SubmissionOf(d, userId, status)
    case Blocked(errs) => d.(errors := errs)
    case Sent(_, reply) =>
      if reply == Created then d.(startsAt := d.endsAt, duration := Num(0), body := Some(""), task := Some(""))
      else d
  }

  lemma SubmittedState(d: Draft, userId: string, status: int)
    ensures var r := Submitted(d, userId, status);
      && (ValidationErrors(d) != map[] ==>
            SubmissionOf(d, userId, status).Blocked? && r == d.(errors := ValidationErrors(d)))
      && (ValidationErrors(d) == map[] && status == 200 ==>
            && r.startsAt == d.endsAt && r.endsAt == d.endsAt
            && r.duration == Num(0) && r.body == Some("") && r.task == Some("")
            && r.project == d.project && r.projectId == d.projectId
            && r.date == d.date && r.errors == d.errors)
      && (ValidationErrors(d) == map[] && status != 200 ==> r == d)
  {
  }

  /** Entries for lunch and autofill projects always reach the server. */
  lemma SpecialProjectsAlwaysSent(d: Draft, userId: string, status: int)
    requires d.project.lunch || d.project.autofill
    ensures SubmissionOf(d, userId, status) == Sent(Request(d, userId), ReplyTo(status))
  {
  }

  /** A created entry leaves a draft whose own check fails on the body, so
      the same text is never submitted twice without a new description. */
  lemma CreatedDraftNeedsBody(d: Draft, userId: string)
    requires !d.project.lunch && !d.project.autofill
    requires ValidationErrors(d) == map[]
    ensures Body in ValidationErrors(Submitted(d, userId, 200))
  {
  }

  // ---------------------------------------------------------------------
  // The errors invariant

  lemma TransitionsKeepWellFormed(d: Draft, name: Field, value: string, day: CalendarDate,
                                  src: Copied, p: Project, userId: string, status: int)
    requires WellFormed(d)
    ensures WellFormed(WithoutErrorFor(d, name))
    ensures name in InputFields ==> WellFormed(Changed(d, name, value))
    ensures ValidDate(day) ==> WellFormed(DateChanged(d, day))
    ensures WellFormed(Pasted(d, src))
    ensures WellFormed(Recounted(d))
    ensures WellFormed(ProjectUpdated(d, p))
    ensures WellFormed(Submitted(d, userId, status))
    ensures Date !in d.errors && Task !in d.errors
  {
    assert Date !in ValidatedFields && Task !in ValidatedFields;
    assert ProjectUpdated(d, p).errors.Keys <= d.errors.Keys by {
      var times := ProjectTimes(p, d.startsAt, d.endsAt);
      var e := WithoutErrorFor(d.(startsAt := times.0, endsAt := times.1, project := p, projectId := p.id), ProjectId);
      assert ProjectUpdated(d, p) == Recounted(e);
      assert Recounted(e).errors == e.errors - {Duration};
    }
    assert ValidationErrors(d).Keys <= ValidatedFields;
  }
}
