/**
 * The calendar resource: public reads (month listing, today, upcoming), and the admin-only
 * create, update, hard delete and list-all behind the guard. The collection is an in-memory
 * sequence of records with unique ids; calendar instants are milliseconds.
 */
module CalendarRoutes {
  import opened Common
  import opened Sequences
  import opened Dates
  import opened CalendarEventSchema
  import AuthMiddleware

  // ---------------------------------------------------------------------------------------
  // Public reads

  /** The query string of `GET /`, already parsed; an empty parameter reads as absent. */
  datatype MonthQuery = MonthQuery(year: Option<int>, month: Option<int>, kind: Option<string>)

  /**
   * The overlap test of the month and today queries: the event starts inside the window, or
   * it started before the window and has an `endDate` at or after the window's start.
   */
  predicate Overlaps(e: CalendarEvent, w: Window) {
    || (w.start <= e.startDate < w.end)
    || (e.startDate < w.start && e.endDate.Some? && e.endDate.value >= w.start)
  }

  /** A `type` parameter that is absent, empty or `'all'` constrains nothing. */
  predicate KindMatches(kind: Option<string>, e: CalendarEvent) {
    !Truthy(kind) || kind.value == "all" || EventTypeName(e.kind) == kind.value
  }

  /** The selection of `GET /`: active, in the month window when both year and month are given, of the type asked for. */
  predicate Listed(q: MonthQuery, e: CalendarEvent) {
    && e.isActive
    && (q.year.Some? && q.month.Some? ==> Overlaps(e, MonthWindow(q.year.value, q.month.value)))
    && KindMatches(q.kind, e)
  }

  function StartKey(e: CalendarEvent): int {
    e.startDate
  }

  /** `GET /`: the selected events in ascending `startDate` order. */
  function ListEvents(events: seq<CalendarEvent>, q: MonthQuery): (r: seq<CalendarEvent>)
    ensures forall i, j :: 0 <= i < j < |r| ==> r[i].startDate <= r[j].startDate
    ensures forall e :: multiset(r)[e] == if Listed(q, e) then multiset(events)[e] else 0
  {
    SortBy(Filter(events, e => Listed(q, e)), StartKey)
  }

  /** `GET /today`: active events overlapping `[today 00:00, tomorrow 00:00)`, in ascending `startDate` order. */
  function TodayEvents(events: seq<CalendarEvent>, now: int): (r: seq<CalendarEvent>)
    ensures forall i, j :: 0 <= i < j < |r| ==> r[i].startDate <= r[j].startDate
    ensures forall e ::
      multiset(r)[e] == if e.isActive && Overlaps(e, DayWindow(now)) then multiset(events)[e] else 0
  {
    SortBy(Filter(events, (e: CalendarEvent) => e.isActive && Overlaps(e, DayWindow(now))), StartKey)
  }

  const UpcomingLimit: nat := 10

  /** An event `GET /upcoming` may return: active and starting at or after today 00:00. */
  predicate Upcoming(e: CalendarEvent, now: int) {
    e.isActive && e.startDate >= StartOfDay(now)
  }

  /** `GET /upcoming`: the ten earliest upcoming events, in ascending `startDate` order. */
  function UpcomingEvents(events: seq<CalendarEvent>, now: int): (r: seq<CalendarEvent>)
    ensures |r| <= UpcomingLimit
    ensures forall i, j :: 0 <= i < j < |r| ==> r[i].startDate <= r[j].startDate
    ensures forall e :: e in r ==> e in events && Upcoming(e, now)
    ensures multiset(r) <= multiset(events)
    ensures forall e :: e in events && Upcoming(e, now) && e !in r ==>
      |r| == UpcomingLimit && forall i :: 0 <= i < |r| ==> r[i].startDate <= e.startDate
  {
    SmallestWhere(events, (e: CalendarEvent) => Upcoming(e, now), StartKey, UpcomingLimit)
  }

  /** `GET /admin/all`: every stored event, active or not, in ascending `startDate` order. */
  function AllEvents(events: seq<CalendarEvent>): (r: seq<CalendarEvent>)
    ensures forall i, j :: 0 <= i < j < |r| ==> r[i].startDate <= r[j].startDate
    ensures multiset(r) == multiset(events)
  {
    SortBy(events, StartKey)
  }

  /**
   * With both year and month, an event is listed exactly when it is stored, active, of the
   * type asked for, and either starts inside the month or started earlier with an `endDate`
   * at or after the first instant of the month; an event without `endDate` is listed only
   * when it starts inside the month.
   */
  lemma MonthListing(events: seq<CalendarEvent>, q: MonthQuery, e: CalendarEvent)
    requires q.year.Some? && q.month.Some?
    ensures var w := MonthWindow(q.year.value, q.month.value);
      e in ListEvents(events, q) <==>
        && e in events && e.isActive && KindMatches(q.kind, e)
        && (|| (w.start <= e.startDate < w.end)
            || (e.startDate < w.start && e.endDate.Some? && e.endDate.value >= w.start))
    ensures e.endDate.None? && e in ListEvents(events, q) ==>
      MonthWindow(q.year.value, q.month.value).start <= e.startDate < MonthWindow(q.year.value, q.month.value).end
  {
    assert e in ListEvents(events, q) <==> multiset(ListEvents(events, q))[e] > 0;
  }

  /**
   * Without both year and month the month listing is the active events of the type asked
   * for, whatever their dates.
   */
  lemma ListingWithoutMonth(events: seq<CalendarEvent>, q: MonthQuery, e: CalendarEvent)
    requires q.year.None? || q.month.None?
    ensures e in ListEvents(events, q) <==> e in events && e.isActive && KindMatches(q.kind, e)
  {
    assert e in ListEvents(events, q) <==> multiset(ListEvents(events, q))[e] > 0;
  }

  /**
   * For March 2024 an event from 20 February to 5 March is listed (it is in progress when the
   * month starts) and one starting on 1 April is not (the window ends where April begins).
   */
  lemma March2024Example(spanning: CalendarEvent, april: CalendarEvent)
    requires spanning.isActive && april.isActive
    requires spanning.startDate == DateInstant(2024, 1, 20) && spanning.endDate == Some(DateInstant(2024, 2, 5))
    requires april.startDate == DateInstant(2024, 3, 1)
    ensures Listed(MonthQuery(Some(2024), Some(3), None), spanning)
    ensures !Listed(MonthQuery(Some(2024), Some(3), None), april)
  {
    Instants2024();
  }

  // ---------------------------------------------------------------------------------------
  // Admin writes, as functions of the collection before the request

  const RequiredMessage: string := "Title, type, and start date are required"
  const CreateErrorMessage: string := "Error creating event"
  const UpdateErrorMessage: string := "Error updating event"
  const NotFoundMessage: string := "Event not found"

  /** The colour for a type string: the fixed table, and the default colour for anything else. */
  function ColorFor(kind: string): (c: string)
    ensures kind == "exam" ==> c == "#ff6b6b"
    ensures kind == "holiday" ==> c == "#4caf50"
    ensures kind == "event" ==> c == "#2196f3"
    ensures kind == "deadline" ==> c == "#ff9800"
    ensures kind == "meeting" ==> c == "#9c27b0"
    ensures kind == "sports" ==> c == "#00bcd4"
    ensures ParseEventType(kind).None? ==> c == DefaultColor
  {
    if kind == "exam" then "#ff6b6b"
    else if kind == "holiday" then "#4caf50"
    else if kind == "event" then "#2196f3"
    else if kind == "deadline" then "#ff9800"
    else if kind == "meeting" then "#9c27b0"
    else if kind == "sports" then "#00bcd4"
    else DefaultColor
  }

  /** The body as saved: a missing or empty `color` is replaced by the colour of the type. */
  function WithColor(b: EventBody): (r: EventBody)
    requires Truthy(b.kind)
    ensures r == b.(color := r.color)
    ensures r.color == Some(if Truthy(b.color) then b.color.value else ColorFor(b.kind.value))
  {
    if Truthy(b.color) then b else b.(color := Some(ColorFor(b.kind.value)))
  }

  /**
   * `POST /`: 400 when title, type or startDate is missing (or the strings are empty), 500
   * when the schema rejects the body, and otherwise the new record with id `id`.
   */
  function CreateEvent(b: EventBody, id: nat, now: int): (r: Result<CalendarEvent>)
    ensures r.Err? && r.failure.status == 400 <==> !Truthy(b.title) || !Truthy(b.kind) || b.startDate.None?
    ensures r.Err? ==> r.failure == Failure(400, RequiredMessage) || r.failure == Failure(500, CreateErrorMessage)
    ensures r.Ok? ==>
      && r.value.id == id && r.value.title == Trim(b.title.value)
      && EventTypeName(r.value.kind) == b.kind.value && r.value.startDate == b.startDate.value
    ensures r.Ok? ==> r.value.color == if Truthy(b.color) then b.color.value else ColorFor(b.kind.value)
  {
    if !Truthy(b.title) || !Truthy(b.kind) || b.startDate.None? then Err(Failure(400, RequiredMessage))
    else match NewCalendarEvent(WithColor(b), id, now)
      case None => Err(Failure(500, CreateErrorMessage))
      case Some(e) => Ok(e)
  }

  /**
   * A body that passes the route's check is saved exactly when the schema accepts it with
   * its colour filled in, and the reply is the record the schema builds.
   */
  lemma CreateSaves(b: EventBody, id: nat, now: int)
    ensures var r := CreateEvent(b, id, now);
      && (r.Ok? <==> Truthy(b.title) && Truthy(b.kind) && b.startDate.Some? && Conforms(WithColor(b)))
      && (r.Ok? ==> NewCalendarEvent(WithColor(b), id, now) == Some(r.value))
  {
  }

  /** Creating an exam or a holiday without a colour gives the table's colour for it. */
  lemma ExamAndHolidayColors(b: EventBody, id: nat, now: int)
    requires b.kind == Some("exam") || b.kind == Some("holiday")
    requires b.color.None?
    requires CreateEvent(b, id, now).Ok?
    ensures b.kind == Some("exam") ==> CreateEvent(b, id, now).value.color == "#ff6b6b"
    ensures b.kind == Some("holiday") ==> CreateEvent(b, id, now).value.color == "#4caf50"
  {
  }

  /** A minimal valid body gets every schema default. */
  lemma CreateDefaults(title: string, kind: EventType, start: int, id: nat, now: int)
    requires Trim(title) != ""
    ensures var b := EventBody(Some(title), None, Some(EventTypeName(kind)), Some(start),
                               None, None, None, None, None, None, None, None);
      var r := CreateEvent(b, id, now);
      && r.Ok? && r.value.allDay && r.value.isActive && r.value.targetAudience == [Everyone]
      && r.value.recurring == Recurring(NoRepeat, None) && r.value.createdBy == DefaultCreatedBy
      && r.value.color == ColorFor(EventTypeName(kind)) && r.value.endDate.None?
  {
    var b := EventBody(Some(title), None, Some(EventTypeName(kind)), Some(start),
                       None, None, None, None, None, None, None, None);
    assert ParseEventType(EventTypeName(kind)) == Some(kind);
    assert title != "" && Truthy(b.title) && Truthy(b.kind);
    var saved := WithColor(b);
    assert Conforms(saved);
    var e := NewCalendarEvent(saved, id, now).value;
    assert CreateEvent(b, id, now) == Ok(e);
  }

  function EventId(e: CalendarEvent): nat {
    e.id
  }

  /**
   * `PUT /:id`: a patch the validators reject gives 500; otherwise an unknown id gives 404;
   * otherwise the record with that id, and only it, is patched. The reply holds the new record.
   */
  function UpdateEvent(events: seq<CalendarEvent>, id: nat, p: EventBody, now: int)
    : (r: (Result<CalendarEvent>, seq<CalendarEvent>))
    requires UniqueKeys(events, EventId)
    ensures !PatchConforms(p) ==> r == (Err(Failure(500, UpdateErrorMessage)), events)
    ensures PatchConforms(p) && !HasKey(events, EventId, id) ==> r == (Err(Failure(404, NotFoundMessage)), events)
    ensures PatchConforms(p) && HasKey(events, EventId, id) ==>
      && r.0.Ok? && r.0.value.id == id && r.0.value in r.1
      && |r.1| == |events|
      && forall i :: 0 <= i < |events| ==>
           r.1[i] == if events[i].id == id then ApplyPatch(events[i], p, now) else events[i]
  {
    if !PatchConforms(p) then (Err(Failure(500, UpdateErrorMessage)), events)
    else match IndexOfKey(events, EventId, id)
      case None => (Err(Failure(404, NotFoundMessage)), events)
      case Some(i) =>
        var updated := ApplyPatch(events[i], p, now);
        assert events[i := updated][i] == updated;
        (Ok(updated), events[i := updated])
  }

  /** An update whose `recurring.frequency` is not one of the five names fails validation: 500. */
  lemma BadFrequencyUpdate(events: seq<CalendarEvent>, id: nat, p: EventBody, now: int)
    requires UniqueKeys(events, EventId)
    requires p.recurring.Some? && p.recurring.value.frequency.Some?
    requires ParseFrequency(p.recurring.value.frequency.value).None?
    ensures UpdateEvent(events, id, p, now) == (Err(Failure(500, UpdateErrorMessage)), events)
  {
  }

  /**
   * `DELETE /:id`: an unknown id gives 404 and changes nothing; otherwise the record with
   * that id is physically removed, every other record stays, in the same order.
   */
  function DeleteEvent(events: seq<CalendarEvent>, id: nat): (r: (Result<CalendarEvent>, seq<CalendarEvent>))
    requires UniqueKeys(events, EventId)
    ensures !HasKey(events, EventId, id) ==> r == (Err(Failure(404, NotFoundMessage)), events)
    ensures HasKey(events, EventId, id) ==>
      && r.0.Ok? && r.0.value in events && r.0.value.id == id
      && |r.1| == |events| - 1
      && (forall e :: e in r.1 <==> e in events && e.id != id)
    ensures UniqueKeys(r.1, EventId)
  {
    match IndexOfKey(events, EventId, id)
    case None => (Err(Failure(404, NotFoundMessage)), events)
    case Some(i) =>
      var rest := events[..i] + events[i + 1..];
      RemoveKeepsUnique(events, EventId, i);
      RemoveMembers(events, EventId, i);
      (Ok(events[i]), rest)
  }

  // ---------------------------------------------------------------------------------------
  // The collection and the admin endpoints

  /** An admin request after the guard has let it through. */
  datatype AdminRequest =
    | Create(body: EventBody)
    | Update(id: nat, patch: EventBody)
    | Delete(id: nat)
    | ListAll

  datatype AdminReply =
    | Rejected(failure: Failure)
    | Written(result: Result<CalendarEvent>)
    | Listing(events: seq<CalendarEvent>)

  class CalendarStore {
    var events: seq<CalendarEvent>
    var nextId: nat

    /** Ids are unique and below the next id to hand out. */
    ghost predicate Valid()
      reads this
    {
      && UniqueKeys(events, EventId)
      && forall i :: 0 <= i < |events| ==> events[i].id < nextId
    }

    constructor ()
      ensures Valid() && events == []
    {
      events := [];
      nextId := 0;
    }

    /** Saves a new event (`now` in ms); the store assigns the next id. */
    method Create(b: EventBody, now: int) returns (r: Result<CalendarEvent>)
      requires Valid()
      modifies this
      ensures Valid()
      ensures r == CreateEvent(b, old(nextId), now)
      ensures events == if r.Ok? then old(events) + [r.value] else old(events)
    {
      r := CreateEvent(b, nextId, now);
      if r.Ok? {
        assert r.value.id == nextId;
        AppendAboveKeepsUnique(events, EventId, r.value);
        events := events + [r.value];
        nextId := nextId + 1;
      }
    }

    method Update(id: nat, p: EventBody, now: int) returns (r: Result<CalendarEvent>)
      requires Valid()
      modifies this
      ensures Valid() && nextId == old(nextId)
      ensures (r, events) == UpdateEvent(old(events), id, p, now)
    {
      var outcome := UpdateEvent(events, id, p, now);
      r := outcome.0;
      ghost var before := events;
      events := outcome.1;
      assert forall i :: 0 <= i < |events| ==> events[i].id == before[i].id;
    }

    method Delete(id: nat) returns (r: Result<CalendarEvent>)
      requires Valid()
      modifies this
      ensures Valid() && nextId == old(nextId)
      ensures (r, events) == DeleteEvent(old(events), id)
    {
      var outcome := DeleteEvent(events, id);
      r := outcome.0;
      ghost var before := events;
      events := outcome.1;
      assert forall i :: 0 <= i < |events| ==> events[i] in before;
    }

    /**
     * An admin endpoint: `authenticateAdmin` runs first; when it rejects, the reply is its
     * 401 and the collection is untouched, otherwise the request is served.
     */
    method Admin(ex: AuthMiddleware.Exchange, k: AuthMiddleware.Keys, now: int, req: AdminRequest)
      returns (reply: AdminReply)
      requires Valid()
      modifies this, ex
      ensures Valid()
      ensures AuthMiddleware.Guard(ex.authorization, k, now / 1000).Reject? ==>
        && reply == Rejected(AuthMiddleware.Guard(ex.authorization, k, now / 1000).failure)
        && events == old(events) && nextId == old(nextId)
      ensures AuthMiddleware.Guard(ex.authorization, k, now / 1000).Proceed? ==>
        && ex.admin == Some(AuthMiddleware.Guard(ex.authorization, k, now / 1000).claims)
        && match req
           case Create(b) =>
             && reply == Written(CreateEvent(b, old(nextId), now))
             && events == if reply.result.Ok? then old(events) + [reply.result.value] else old(events)
           case Update(id, p) => (reply, events) == (Written(UpdateEvent(old(events), id, p, now).0), UpdateEvent(old(events), id, p, now).1)
           case Delete(id) => (reply, events) == (Written(DeleteEvent(old(events), id).0), DeleteEvent(old(events), id).1)
           case ListAll => reply == Listing(AllEvents(old(events))) && events == old(events)
    {
      var calls := ex.nextCalls;
      AuthMiddleware.AuthenticateAdmin(ex, k, now / 1000);
      if ex.nextCalls == calls {
        reply := Rejected(ex.response.value);
        return;
      }
      match req {
        case Create(b) =>
          var r := Create(b, now);
          reply := Written(r);
        case Update(id, p) =>
          var r := Update(id, p, now);
          reply := Written(r);
        case Delete(id) =>
          var r := Delete(id);
          reply := Written(r);
        case ListAll =>
          reply := Listing(AllEvents(events));
      }
    }
  }
}
