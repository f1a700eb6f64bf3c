/** The CalendarEvent schema: its enums, its required paths and the defaults a new record gets. */
module CalendarEventSchema {
  import opened Common

  datatype EventType = Exam | Holiday | Event | Deadline | Meeting | Sports

  function EventTypeName(t: EventType): string {
    match t
    case Exam => "exam"
    case Holiday => "holiday"
    case Event => "event"
    case Deadline => "deadline"
    case Meeting => "meeting"
    case Sports => "sports"
  }

  /** Enum validation of the `type` path. */
  function ParseEventType(s: string): (r: Option<EventType>)
    ensures forall t :: r == Some(t) <==> EventTypeName(t) == s
  {
    if s == "exam" then Some(Exam)
    else if s == "holiday" then Some(Holiday)
    else if s == "event" then Some(Event)
    else if s == "deadline" then Some(Deadline)
    else if s == "meeting" then Some(Meeting)
    else if s == "sports" then Some(Sports)
    else None
  }

  datatype Frequency = NoRepeat | Daily | Weekly | Monthly | Yearly

  function FrequencyName(f: Frequency): string {
    match f
    case NoRepeat => "none"
    case Daily => "daily"
    case Weekly => "weekly"
    case Monthly => "monthly"
    case Yearly => "yearly"
  }

  /** Enum validation of the `recurring.frequency` path. */
  function ParseFrequency(s: string): (r: Option<Frequency>)
    ensures forall f :: r == Some(f) <==> FrequencyName(f) == s
  {
    if s == "none" then Some(NoRepeat)
    else if s == "daily" then Some(Daily)
    else if s == "weekly" then Some(Weekly)
    else if s == "monthly" then Some(Monthly)
    else if s == "yearly" then Some(Yearly)
    else None
  }

  /** Recurrence is stored as metadata only; nothing expands it into occurrences. */
  datatype Recurring = Recurring(frequency: Frequency, endDate: Option<int>)

  /** A stored event. Dates are instants in milliseconds (see module Dates). */
  datatype CalendarEvent = CalendarEvent(
    id: nat,
    title: string,
    description: Option<string>,
    kind: EventType,
    startDate: int,
    endDate: Option<int>,
    allDay: bool,
    color: string,
    location: Option<string>,
    targetAudience: seq<Audience>,
    recurring: Recurring,
    createdBy: string,
    isActive: bool,
    createdAt: int,
    updatedAt: int)

  /** The `recurring` object of a request body. */
  datatype RecurringBody = RecurringBody(frequency: Option<string>, endDate: Option<int>)

  /** A request body as the client sends it: every path optional, enums still as strings. */
  datatype EventBody = EventBody(
    title: Option<string>,
    description: Option<string>,
    kind: Option<string>,
    startDate: Option<int>,
    endDate: Option<int>,
    allDay: Option<bool>,
    color: Option<string>,
    location: Option<string>,
    targetAudience: Option<seq<string>>,
    recurring: Option<RecurringBody>,
    createdBy: Option<string>,
    isActive: Option<bool>)

  const DefaultColor: string := "#1a237e"
  const DefaultCreatedBy: string := "Administrator"

  /** The frequency string of a body, if it names one. */
  function FrequencyOf(b: EventBody): Option<string> {
    if b.recurring.Some? then b.recurring.value.frequency else None
  }

  /**
   * Validation of the schema on save: `title` is required and is trimmed first (so a
   * whitespace-only title fails), `type` and `startDate` are required, and every enum path
   * that is present holds an enum value.
   */
  predicate Conforms(b: EventBody) {
    && b.title.Some? && Trim(b.title.value) != ""
    && b.kind.Some? && ParseEventType(b.kind.value).Some?
    && b.startDate.Some?
    && (b.targetAudience.Some? ==> ParseAudiences(b.targetAudience.value).Some?)
    && (FrequencyOf(b).Some? ==> ParseFrequency(FrequencyOf(b).value).Some?)
  }

  /**
   * `new CalendarEvent(body)` followed by `save()`: None when validation fails, otherwise the
   * stored record, with the defaults for every path the body leaves out and timestamps `now`.
   */
  function NewCalendarEvent(b: EventBody, id: nat, now: int): (r: Option<CalendarEvent>)
    ensures r.Some? <==> Conforms(b)
    ensures r.Some? ==>
      var e := r.value;
      && e.id == id && e.createdAt == now && e.updatedAt == now
      && e.title == Trim(b.title.value)
      && EventTypeName(e.kind) == b.kind.value
      && e.startDate == b.startDate.value
      && e.endDate == b.endDate && e.description == b.description && e.location == b.location
      && (if b.allDay.Some? then e.allDay == b.allDay.value else e.allDay)
      && e.color == (if b.color.Some? then b.color.value else DefaultColor)
      && (if b.targetAudience.Some?
          then |e.targetAudience| == |b.targetAudience.value|
               && forall i :: 0 <= i < |e.targetAudience| ==> AudienceName(e.targetAudience[i]) == b.targetAudience.value[i]
          else e.targetAudience == [Everyone])
      && (if FrequencyOf(b).Some? then FrequencyName(e.recurring.frequency) == FrequencyOf(b).value
          else e.recurring.frequency == NoRepeat)
      && e.recurring.endDate == (if b.recurring.Some? then b.recurring.value.endDate else None)
      && e.createdBy == (if b.createdBy.Some? then b.createdBy.value else DefaultCreatedBy)
      && (if b.isActive.Some? then e.isActive == b.isActive.value else e.isActive)
  {
    if !Conforms(b) then None
    else
      var audience := if b.targetAudience.Some? then ParseAudiences(b.targetAudience.value).value else [Everyone];
      var frequency := if FrequencyOf(b).Some? then ParseFrequency(FrequencyOf(b).value).value else NoRepeat;
      var recurringEnd := if b.recurring.Some? then b.recurring.value.endDate else None;
      Some(CalendarEvent(
        id, Trim(b.title.value), b.description, ParseEventType(b.kind.value).value,
        b.startDate.value, b.endDate, b.allDay.GetOr(true), b.color.GetOr(DefaultColor),
        b.location, audience, Recurring(frequency, recurringEnd), b.createdBy.GetOr(DefaultCreatedBy),
        b.isActive.GetOr(true), now, now))
  }

  /**
   * Validation of an update with validators on: only the paths present are checked, with
   * the same rules as on save (a `title` that trims to nothing fails `required`).
   */
  predicate PatchConforms(p: EventBody) {
    && (p.title.Some? ==> Trim(p.title.value) != "")
    && (p.kind.Some? ==> ParseEventType(p.kind.value).Some?)
    && (p.targetAudience.Some? ==> ParseAudiences(p.targetAudience.value).Some?)
    && (FrequencyOf(p).Some? ==> ParseFrequency(FrequencyOf(p).value).Some?)
  }

  /**
   * A partial update: every path present in `p` overwrites the stored one, the others keep
   * their values, and the store stamps `updatedAt`.
   */
  function ApplyPatch(e: CalendarEvent, p: EventBody, now: int): (r: CalendarEvent)
    requires PatchConforms(p)
    ensures r.id == e.id && r.createdAt == e.createdAt && r.updatedAt == now && r.recurring == e.recurring
    ensures r.title == (if p.title.Some? then Trim(p.title.value) else e.title)
    ensures p.kind.Some? ==> EventTypeName(r.kind) == p.kind.value
    ensures p.kind.None? ==> r.kind == e.kind
    ensures p.targetAudience.Some? ==> ParseAudiences(p.targetAudience.value) == Some(r.targetAudience)
    ensures p.targetAudience.None? ==> r.targetAudience == e.targetAudience
  {
    var kind := if p.kind.Some? then ParseEventType(p.kind.value).value else e.kind;
    var audience := if p.targetAudience.Some? then ParseAudiences(p.targetAudience.value).value else e.targetAudience;
    CalendarEvent(
      e.id,
      if p.title.Some? then Trim(p.title.value) else e.title,
      if p.description.Some? then p.description else e.description,
      kind,
      p.startDate.GetOr(e.startDate),
      if p.endDate.Some? then p.endDate else e.endDate,
      p.allDay.GetOr(e.allDay),
      p.color.GetOr(e.color),
      if p.location.Some? then p.location else e.location,
      audience,
      e.recurring,
      p.createdBy.GetOr(e.createdBy),
      p.isActive.GetOr(e.isActive),
      e.createdAt,
      now)
  }

  /** Every path without validation takes the patch's value when present, the stored one otherwise. */
  lemma PatchPlainPaths(e: CalendarEvent, p: EventBody, now: int)
    requires PatchConforms(p)
    ensures var r := ApplyPatch(e, p, now);
      && r.startDate == p.startDate.GetOr(e.startDate) && r.isActive == p.isActive.GetOr(e.isActive)
      && r.endDate == (if p.endDate.Some? then p.endDate else e.endDate)
      && r.color == p.color.GetOr(e.color) && r.allDay == p.allDay.GetOr(e.allDay)
      && r.createdBy == p.createdBy.GetOr(e.createdBy)
      && r.description == (if p.description.Some? then p.description else e.description)
      && r.location == (if p.location.Some? then p.location else e.location)
  {
  }

  /** A patch that sets no path changes nothing but `updatedAt`. */
  lemma EmptyPatch(e: CalendarEvent, p: EventBody, now: int)
    requires p == EventBody(None, None, None, None, None, None, None, None, None, p.recurring, None, None)
    requires PatchConforms(p)
    ensures ApplyPatch(e, p, now) == e.(updatedAt := now)
  {
  }
}
