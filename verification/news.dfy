/** The News schema: its enums, its required paths and the defaults a new record gets. */
module NewsSchema {
  import opened Common

  datatype Category = General | Exam | Holiday | Event | Announcement

  function CategoryName(c: Category): string {
    match c
    case General => "general"
    case Exam => "exam"
    case Holiday => "holiday"
    case Event => "event"
    case Announcement => "announcement"
  }

  /** Enum validation of the `category` path. */
  function ParseCategory(s: string): (r: Option<Category>)
    ensures forall c :: r == Some(c) <==> CategoryName(c) == s
  {
    if s == "general" then Some(General)
    else if s == "exam" then Some(Exam)
    else if s == "holiday" then Some(Holiday)
    else if s == "event" then Some(Event)
    else if s == "announcement" then Some(Announcement)
    else None
  }

  datatype Priority = Low | Medium | High | Urgent

  function PriorityName(p: Priority): string {
    match p
    case Low => "low"
    case Medium => "medium"
    case High => "high"
    case Urgent => "urgent"
  }

  /** Enum validation of the `priority` path. */
  function ParsePriority(s: string): (r: Option<Priority>)
    ensures forall p :: r == Some(p) <==> PriorityName(p) == s
  {
    if s == "low" then Some(Low)
    else if s == "medium" then Some(Medium)
    else if s == "high" then Some(High)
    else if s == "urgent" then Some(Urgent)
    else None
  }

  datatype Attachment = Attachment(filename: Option<string>, url: Option<string>, fileType: Option<string>)

  /** A stored news item; `createdAt` and `updatedAt` are stamped by the store. */
  datatype News = News(
    id: nat,
    title: string,
    content: string,
    category: Category,
    priority: Priority,
    targetAudience: seq<Audience>,
    attachments: seq<Attachment>,
    publishedBy: string,
    isActive: bool,
    expiryDate: Option<int>,
    notificationSent: bool,
    createdAt: int,
    updatedAt: int)

  /** A request body as the client sends it: every path optional, enums still as strings. */
  datatype NewsBody = NewsBody(
    title: Option<string>,
    content: Option<string>,
    category: Option<string>,
    priority: Option<string>,
    targetAudience: Option<seq<string>>,
    attachments: Option<seq<Attachment>>,
    publishedBy: Option<string>,
    isActive: Option<bool>,
    expiryDate: Option<int>,
    notificationSent: Option<bool>)

  const DefaultPublishedBy: string := "Administrator"

  /** The enum paths of `b` that are present hold enum values. */
  predicate EnumsConform(b: NewsBody) {
    && (b.category.Some? ==> ParseCategory(b.category.value).Some?)
    && (b.priority.Some? ==> ParsePriority(b.priority.value).Some?)
    && (b.targetAudience.Some? ==> ParseAudiences(b.targetAudience.value).Some?)
  }

  /**
   * Validation of the schema on save: `title` is required and trimmed first (a
   * whitespace-only title fails), `content` is required (the empty string fails), and
   * the enum paths hold enum values.
   */
  predicate Conforms(b: NewsBody) {
    && b.title.Some? && Trim(b.title.value) != ""
    && b.content.Some? && b.content.value != ""
    && EnumsConform(b)
  }

  /**
   * `new News(body)` followed by `save()`: None when validation fails, otherwise the stored
   * record with the defaults for every path the body leaves out and timestamps `now`.
   */
  function NewNews(b: NewsBody, id: nat, now: int): (r: Option<News>)
    ensures r.Some? <==> Conforms(b)
    ensures r.Some? ==>
      var n := r.value;
      && n.id == id && n.createdAt == now && n.updatedAt == now
      && n.title == Trim(b.title.value) && n.content == b.content.value
      && (if b.category.Some? then CategoryName(n.category) == b.category.value else n.category == General)
      && (if b.priority.Some? then PriorityName(n.priority) == b.priority.value else n.priority == Medium)
      && (if b.targetAudience.Some?
          then |n.targetAudience| == |b.targetAudience.value|
               && forall i :: 0 <= i < |n.targetAudience| ==> AudienceName(n.targetAudience[i]) == b.targetAudience.value[i]
          else n.targetAudience == [Everyone])
      && n.attachments == (if b.attachments.Some? then b.attachments.value else [])
      && n.publishedBy == (if b.publishedBy.Some? then b.publishedBy.value else DefaultPublishedBy)
      && (if b.isActive.Some? then n.isActive == b.isActive.value else n.isActive)
      && n.expiryDate == b.expiryDate
      && (if b.notificationSent.Some? then n.notificationSent == b.notificationSent.value else !n.notificationSent)
  {
    if !Conforms(b) then None
    else
      Some(News(
        id, Trim(b.title.value), b.content.value,
        if b.category.Some? then ParseCategory(b.category.value).value else General,
        if b.priority.Some? then ParsePriority(b.priority.value).value else Medium,
        if b.targetAudience.Some? then ParseAudiences(b.targetAudience.value).value else [Everyone],
        b.attachments.GetOr([]), b.publishedBy.GetOr(DefaultPublishedBy), b.isActive.GetOr(true),
        b.expiryDate, b.notificationSent.GetOr(false), now, now))
  }

  /**
   * Validation of an update with validators on: only the paths present are checked, with
   * the same rules as on save.
   */
  predicate PatchConforms(p: NewsBody) {
    && (p.title.Some? ==> Trim(p.title.value) != "")
    && (p.content.Some? ==> p.content.value != "")
    && EnumsConform(p)
  }

  /**
   * A partial update: every path present in `p` overwrites the stored one, the others keep
   * their values, and the store stamps `updatedAt`.
   */
  function ApplyPatch(n: News, p: NewsBody, now: int): (r: News)
    requires PatchConforms(p)
    ensures r.id == n.id && r.createdAt == n.createdAt && r.updatedAt == now
    ensures r.title == (if p.title.Some? then Trim(p.title.value) else n.title)
    ensures r.content == p.content.GetOr(n.content) && r.isActive == p.isActive.GetOr(n.isActive)
    ensures p.category.Some? ==> CategoryName(r.category) == p.category.value
    ensures p.category.None? ==> r.category == n.category
    ensures p.priority.Some? ==> PriorityName(r.priority) == p.priority.value
    ensures p.priority.None? ==> r.priority == n.priority
    ensures p.targetAudience.Some? ==> ParseAudiences(p.targetAudience.value) == Some(r.targetAudience)
    ensures p.targetAudience.None? ==> r.targetAudience == n.targetAudience
    ensures r.attachments == p.attachments.GetOr(n.attachments) && r.publishedBy == p.publishedBy.GetOr(n.publishedBy)
    ensures r.expiryDate == (if p.expiryDate.Some? then p.expiryDate else n.expiryDate)
    ensures r.notificationSent == p.notificationSent.GetOr(n.notificationSent)
    ensures p == NewsBody(None, None, None, None, None, None, None, None, None, None) ==> r == n.(updatedAt := now)
  {
    var category := if p.category.Some? then ParseCategory(p.category.value).value else n.category;
    var priority := if p.priority.Some? then ParsePriority(p.priority.value).value else n.priority;
    var audience := if p.targetAudience.Some? then ParseAudiences(p.targetAudience.value).value else n.targetAudience;
    News(
      n.id,
      if p.title.Some? then Trim(p.title.value) else n.title,
      p.content.GetOr(n.content),
      category,
      priority,
      audience,
      p.attachments.GetOr(n.attachments),
      p.publishedBy.GetOr(n.publishedBy),
      p.isActive.GetOr(n.isActive),
      if p.expiryDate.Some? then p.expiryDate else n.expiryDate,
      p.notificationSent.GetOr(n.notificationSent),
      n.createdAt,
      now)
  }
}
