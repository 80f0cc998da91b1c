/** The timesheet entry form as an object whose handlers update its fields
    in place. Each handler, together with the follow-up it schedules after
    its state update, is one method; the network reply of a submission is a
    parameter, and the parent's pushEntry callback is the `pushed` list. */
module EntryComponent {
  import opened Wrappers
  import opened Clock
  import opened Calendar
  import opened Validations
  import opened EntryDraft

  class Entry {
    var body: Option<string>
    var task: Option<string>
    var project: Project
    var projectId: Option<int>
    var startsAt: string
    var endsAt: string
    var duration: JsNumber
    var date: string
    var errors: map<Field, Violation>
    /** The created entries handed to the parent's pushEntry, oldest first. */
    var pushed: seq<WorkTime>

    function Current(): Draft
      reads this
    {
      Draft(body, task, project, projectId, startsAt, endsAt, duration, date, errors)
    }

    /** The class invariant: `errors` only ever holds what `Validate` reported,
        so it is keyed by validated fields (never `Date` or `Task`). Every
        handler keeps it; `OnSubmit` relies on `Validate`'s second ensures to
        re-establish it when it stores the reported errors. */
    ghost predicate Valid()
      reads this
    {
      WellFormed(Current())
    }

    constructor (now: Minute, today: CalendarDate)
      requires ValidDate(today)
      ensures Valid() && Current() == Initial(now, today) && pushed == []
    {
      var clock := FormattedHoursAndMinutes(Some(now));
      body, task, project, projectId := None, Some(""), NoProject, None;
      startsAt, endsAt, duration := clock, clock, Num(0);
      date, errors, pushed := FormatDate(today), map[], [];
    }

    method RemoveErrorsFor(name: Field)
      modifies this`errors
      ensures Current() == WithoutErrorFor(old(Current()), name)
      ensures name !in errors && errors.Keys == old(errors.Keys) - {name}
    {
      errors := errors - {name};
    }

    method OnChange(name: Field, value: string)
      requires Valid() && name in InputFields
      modifies this
      ensures Valid() && Current() == Changed(old(Current()), name, value) && pushed == old(pushed)
    {
      if name == Body {
        body := Some(value);
      } else if name == Task {
        task := Some(value);
      } else if name == StartsAt {
        startsAt := value;
      } else {
        endsAt := value;
      }
      RemoveErrorsFor(name);
    }

    method OnDateChange(day: CalendarDate)
      requires Valid() && ValidDate(day)
      modifies this
      ensures Valid() && Current() == DateChanged(old(Current()), day) && pushed == old(pushed)
    {
      date := FormatDate(day);
      RemoveErrorsFor(Date);
    }

    method Paste(src: Copied)
      requires Valid()
      modifies this
      ensures Valid() && Current() == Pasted(old(Current()), src) && pushed == old(pushed)
    {
      body, project, projectId, task := src.body, src.project, src.project.id, src.task;
    }

    /** validate: builds every check's outcome under its field name, then
        deletes the keys whose check passed. */
    method Validate() returns (errs: map<Field, Violation>)
      ensures errs == ValidationErrors(Current())
      ensures errs.Keys <= ValidatedFields
    {
      if project.lunch || project.autofill {
        return map[];
      }
      var checks: map<Field, Option<Violation>> := map[
        Body := Presence(body),
        StartsAt := Presence(Some(startsAt)),
        EndsAt := Presence(Some(endsAt)),
        ProjectId := PresenceOfId(projectId),
        Duration := GreaterThan(0, duration)];
      assert checks == Checks(Current());
      errs := DeleteUndefined(checks, ValidatedOrder);
    }

    method OnSubmit(query: map<string, string>, currentUserId: string, status: int, created: WorkTime)
      returns (outcome: Submission)
      requires Valid()
      modifies this
      ensures Valid()
      ensures outcome == SubmissionOf(old(Current()), ActingUser(query, currentUserId), status)
      ensures Current() == Submitted(old(Current()), ActingUser(query, currentUserId), status)
      ensures pushed == old(pushed) + (if outcome.Sent? && outcome.reply == Created then [created] else [])
    {
      var errs := Validate();
      var userId := ActingUser(query, currentUserId);
      if errs != map[] {
        errors := errs;
        outcome := Blocked(errs);
      } else {
        var request := WorkTime(userId, body, task, project.id, date, startsAt, endsAt);
        var reply := ReplyTo(status);
        outcome := Sent(request, reply);
        if reply == Created {
          pushed := pushed + [created];
          startsAt, duration, body, task := endsAt, Num(0), Some(""), Some("");
        }
      }
    }

    method UpdateProject(p: Project)
      requires Valid()
      modifies this
      ensures Valid() && Current() == ProjectUpdated(old(Current()), p) && pushed == old(pushed)
    {
      var times := ProjectTimes(p, startsAt, endsAt);
      startsAt, endsAt, project, projectId := times.0, times.1, p, p.id;
      RemoveErrorsFor(ProjectId);
      RecountTime();
    }

    method RecountTime()
      requires Valid()
      modifies this
      ensures Valid() && Current() == Recounted(old(Current())) && pushed == old(pushed)
    {
      var start, end := ParseClock(startsAt), ParseClock(endsAt);
      duration := CountedDuration(project, start, end);
      startsAt := FormattedHoursAndMinutes(start);
      endsAt := FormattedHoursAndMinutes(end);
      RemoveErrorsFor(Duration);
    }
  }

  /** The clean-up loop of validate: walk the keys in order and delete every
      key whose outcome is undefined; the defined outcomes are what is left. */
  method DeleteUndefined(checks: map<Field, Option<Violation>>, keys: seq<Field>)
    returns (errs: map<Field, Violation>)
    requires forall f :: f in checks ==> f in keys
    ensures errs == DefinedOutcomes(checks)
  {
    var left := checks;
    var i := 0;
    while i < |keys|
      invariant 0 <= i <= |keys|
      invariant forall f :: f in left <==> f in checks && (f in keys[..i] ==> checks[f].Some?)
      invariant forall f :: f in left ==> left[f] == checks[f]
    {
      var key := keys[i];
      if key !in left || left[key].None? {
        left := left - {key};
      }
      assert keys[..i + 1] == keys[..i] + [key];
      i := i + 1;
    }
    assert keys[..i] == keys;
    errs := map f | f in left :: left[f].value;
  }
}
