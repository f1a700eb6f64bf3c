/**
 * The news resource: public reads (paginated listing, latest five, get by id), and the
 * admin-only create, update, archive and list-all behind the guard. The collection is an
 * in-memory sequence of records with unique ids; archiving is a soft delete.
 */
module NewsRoutes {
  import opened Common
  import opened Sequences
  import opened NewsSchema
  import AuthMiddleware

  // ---------------------------------------------------------------------------------------
  // Public reads

  /** The query string of `GET /`, already parsed; an absent limit or page takes its default. */
  datatype ListQuery = ListQuery(category: Option<string>, limit: Option<int>, page: Option<int>)

  const DefaultLimit: int := 20
  const DefaultPage: int := 1

  /** Limit and page, when given, are positive. */
  predicate WellFormed(q: ListQuery) {
    (q.limit.Some? ==> q.limit.value >= 1) && (q.page.Some? ==> q.page.value >= 1)
  }

  /** A `category` parameter that is absent, empty or `'all'` constrains nothing. */
  predicate CategoryMatches(category: Option<string>, n: News) {
    !Truthy(category) || category.value == "all" || CategoryName(n.category) == category.value
  }

  /** The selection of the public listing: active, of the category asked for. */
  predicate Published(q: ListQuery, n: News) {
    n.isActive && CategoryMatches(q.category, n)
  }

  function CreatedAt(n: News): int {
    n.createdAt
  }

  /** Newest first: descending `createdAt`, a permutation of `s`. */
  function NewestFirst(s: seq<News>): (r: seq<News>)
    ensures forall i, j :: 0 <= i < j < |r| ==> r[i].createdAt >= r[j].createdAt
    ensures multiset(r) == multiset(s)
  {
    SortDescBy(s, CreatedAt)
  }

  /**
   * `a * b` on naturals, by repeated addition; keeping the multiplication behind a recursive
   * definition keeps the solver away from non-linear arithmetic in the paging proofs.
   */
  function Mul(a: nat, b: nat): nat {
    if a == 0 then 0 else b + Mul(a - 1, b)
  }

  lemma {:induction false} MulIsProduct(a: nat, b: nat)
    ensures Mul(a, b) == a * b
  {
    if a > 0 {
      MulIsProduct(a - 1, b);
    }
  }

  lemma {:induction false} MulMonotonic(a: nat, c: nat, b: nat)
    requires a <= c
    ensures Mul(a, b) <= Mul(c, b)
  {
    if a < c {
      MulMonotonic(a, c - 1, b);
    }
  }

  /** `Math.ceil(a / b)` on naturals: the fewest pages of `b` items that hold `a` items. */
  function CeilDiv(a: nat, b: nat): (r: nat)
    requires b >= 1
    ensures Mul(r, b) >= a
    ensures r == 0 || Mul(r - 1, b) < a
  {
    CeilDivBounds(a, b);
    (a + b - 1) / b
  }

  lemma CeilDivBounds(a: nat, b: nat)
    requires b >= 1
    ensures Mul((a + b - 1) / b, b) >= a
    ensures (a + b - 1) / b == 0 || Mul((a + b - 1) / b - 1, b) < a
  {
    var q := (a + b - 1) / b;
    var m := (a + b - 1) % b;
    assert a + b - 1 == q * b + m;
    MulIsProduct(q, b);
    if q > 0 {
      MulIsProduct(q - 1, b);
      assert (q - 1) * b == q * b - b;
    }
  }

  /** The reply of the public listing. */
  datatype NewsPage = NewsPage(news: seq<News>, total: nat, page: int, totalPages: nat)

  function LimitOf(q: ListQuery): int {
    q.limit.GetOr(DefaultLimit)
  }

  function PageOf(q: ListQuery): int {
    q.page.GetOr(DefaultPage)
  }

  /** `(page - 1) * limit`: how many matching items come before the page. */
  function SkipOf(q: ListQuery): nat
    requires WellFormed(q)
  {
    Mul(PageOf(q) - 1, LimitOf(q))
  }

  /** The items the public listing pages through: the published ones, newest first. */
  function Matching(items: seq<News>, q: ListQuery): (r: seq<News>)
    ensures forall i, j :: 0 <= i < j < |r| ==> r[i].createdAt >= r[j].createdAt
    ensures forall n :: multiset(r)[n] == if Published(q, n) then multiset(items)[n] else 0
  {
    NewestFirst(Filter(items, (n: News) => Published(q, n)))
  }

  /**
   * `GET /`: page `page` of the matching items, newest first, `limit` to a page; `total`
   * counts every matching item and `totalPages` is `ceil(total / limit)`.
   */
  function ListNews(items: seq<News>, q: ListQuery): (r: NewsPage)
    requires WellFormed(q)
    ensures r.total == |Matching(items, q)| && r.page == PageOf(q)
    ensures r.totalPages == CeilDiv(r.total, LimitOf(q))
    ensures |r.news| == if SkipOf(q) < r.total then (if LimitOf(q) < r.total - SkipOf(q) then LimitOf(q) else r.total - SkipOf(q)) else 0
    ensures |r.news| <= LimitOf(q)
    ensures |r.news| > 0 <==> SkipOf(q) < r.total
    ensures forall i :: 0 <= i < |r.news| ==>
              SkipOf(q) + i < r.total && r.news[i] == Matching(items, q)[SkipOf(q) + i]
  {
    var m := Matching(items, q);
    var w := Window(m, SkipOf(q), LimitOf(q));
    assert |w| > 0 <==> SkipOf(q) < |m|;
    NewsPage(w, |m|, PageOf(q), CeilDiv(|m|, LimitOf(q)))
  }

  /** Every item on any page is published. */
  lemma ListedArePublished(items: seq<News>, q: ListQuery, n: News)
    requires WellFormed(q)
    requires n in ListNews(items, q).news
    ensures n in items && Published(q, n)
  {
    var news := ListNews(items, q).news;
    var m := Matching(items, q);
    var i :| 0 <= i < |news| && news[i] == n;
    assert m[SkipOf(q) + i] == n;
    assert n in multiset(m);
  }

  /** With `t` items and `l` to a page, page `p` starts inside the items iff `p <= ceil(t / l)`. */
  lemma {:induction false} PageStartsInside(t: nat, l: nat, p: int)
    requires l >= 1 && p >= 1
    ensures Mul(p - 1, l) < t <==> p <= CeilDiv(t, l)
  {
    var c := CeilDiv(t, l);
    if p <= c {
      MulMonotonic(p - 1, c - 1, l);
    } else {
      MulMonotonic(c, p - 1, l);
    }
  }

  /** The pages `1 .. totalPages` are exactly the non-empty ones. */
  lemma PageNonEmptyIff(items: seq<News>, q: ListQuery)
    requires WellFormed(q)
    ensures var r := ListNews(items, q); |r.news| > 0 <==> r.page <= r.totalPages
  {
    var r := ListNews(items, q);
    assert SkipOf(q) == Mul(PageOf(q) - 1, LimitOf(q));
    PageStartsInside(r.total, LimitOf(q), PageOf(q));
  }

  /** 25 published items with limit 20: two pages, and the second holds the last five. */
  lemma PaginationExample(items: seq<News>, category: Option<string>)
    requires |Matching(items, ListQuery(category, Some(20), Some(2)))| == 25
    ensures var r := ListNews(items, ListQuery(category, Some(20), Some(2)));
      r.total == 25 && r.totalPages == 2 && |r.news| == 5
  {
  }

  const LatestLimit: nat := 5

  /** Not archived: the filter of the latest listing. */
  predicate Live(n: News) {
    n.isActive
  }

  /** `GET /latest`: the five newest active items, newest first. */
  function LatestNews(items: seq<News>): (r: seq<News>)
    ensures |r| <= LatestLimit
    ensures forall i, j :: 0 <= i < j < |r| ==> r[i].createdAt >= r[j].createdAt
    ensures forall n :: n in r ==> n in items && n.isActive
    ensures multiset(r) <= multiset(items)
    ensures forall n :: n in items && n.isActive && n !in r ==>
      |r| == LatestLimit && forall i :: 0 <= i < |r| ==> r[i].createdAt >= n.createdAt
  {
    LargestWhere(items, Live, CreatedAt, LatestLimit)
  }

  const NotFoundMessage: string := "News not found"

  function NewsId(n: News): nat {
    n.id
  }

  /** `GET /:id`: the item with that id, or 404 when there is none or it is archived. */
  function GetNews(items: seq<News>, id: nat): (r: Result<News>)
    requires UniqueKeys(items, NewsId)
    ensures r.Ok? ==> r.value in items && r.value.id == id && r.value.isActive
    ensures r.Err? ==> r.failure == Failure(404, NotFoundMessage)
    ensures r.Err? <==> forall i :: 0 <= i < |items| && items[i].id == id ==> !items[i].isActive
  {
    match IndexOfKey(items, NewsId, id)
    case None => Err(Failure(404, NotFoundMessage))
    case Some(i) => if items[i].isActive then Ok(items[i]) else Err(Failure(404, NotFoundMessage))
  }

  /** `GET /admin/all`: every stored item, archived or not, newest first. */
  function AllNews(items: seq<News>): (r: seq<News>)
    ensures forall i, j :: 0 <= i < j < |r| ==> r[i].createdAt >= r[j].createdAt
    ensures multiset(r) == multiset(items)
  {
    NewestFirst(items)
  }

  // ---------------------------------------------------------------------------------------
  // Admin writes, as functions of the collection before the request

  const RequiredMessage: string := "Title and content are required"
  const CreateErrorMessage: string := "Error creating news"
  const UpdateErrorMessage: string := "Error updating news"

  /**
   * `POST /`: 400 when title or content is missing or empty, 500 when the schema rejects the
   * body, and otherwise the new record with id `id`.
   */
  function CreateNews(b: NewsBody, id: nat, now: int): (r: Result<News>)
    ensures r.Err? && r.failure.status == 400 <==> !Truthy(b.title) || !Truthy(b.content)
    ensures r.Err? ==> r.failure == Failure(400, RequiredMessage) || r.failure == Failure(500, CreateErrorMessage)
    ensures r.Ok? ==>
      && r.value.id == id && r.value.title == Trim(b.title.value) && r.value.content == b.content.value
      && r.value.createdAt == now
  {
    if !Truthy(b.title) || !Truthy(b.content) then Err(Failure(400, RequiredMessage))
    else match NewNews(b, id, now)
      case None => Err(Failure(500, CreateErrorMessage))
      case Some(n) => Ok(n)
  }

  /**
   * A body that passes the route's check is saved exactly when the schema accepts it, and
   * the reply is the record the schema builds.
   */
  lemma CreateSaves(b: NewsBody, id: nat, now: int)
    ensures var r := CreateNews(b, id, now);
      && (r.Ok? <==> Truthy(b.title) && Truthy(b.content) && Conforms(b))
      && (r.Ok? ==> NewNews(b, id, now) == Some(r.value))
  {
  }

  /** A minimal valid body gets every schema default. */
  lemma CreateDefaults(title: string, content: string, id: nat, now: int)
    requires Trim(title) != "" && content != ""
    ensures var r := CreateNews(NewsBody(Some(title), Some(content), None, None, None, None, None, None, None, None), id, now);
      && r.Ok? && r.value.category == General && r.value.priority == Medium
      && r.value.targetAudience == [Everyone] && r.value.attachments == []
      && r.value.publishedBy == DefaultPublishedBy && r.value.isActive && !r.value.notificationSent
  {
    var b := NewsBody(Some(title), Some(content), None, None, None, None, None, None, None, None);
    assert Conforms(b);
  }

  /**
   * `PUT /:id`: a patch the validators reject gives 500; otherwise an unknown id gives 404;
   * otherwise the record with that id, and only it, is patched.
   */
  function UpdateNews(items: seq<News>, id: nat, p: NewsBody, now: int): (r: (Result<News>, seq<News>))
    requires UniqueKeys(items, NewsId)
    ensures !PatchConforms(p) ==> r == (Err(Failure(500, UpdateErrorMessage)), items)
    ensures PatchConforms(p) && !HasKey(items, NewsId, id) ==> r == (Err(Failure(404, NotFoundMessage)), items)
    ensures PatchConforms(p) && HasKey(items, NewsId, id) ==>
      && r.0.Ok? && r.0.value.id == id && r.0.value in r.1
      && |r.1| == |items|
      && forall i :: 0 <= i < |items| ==>
           r.1[i] == if items[i].id == id then ApplyPatch(items[i], p, now) else items[i]
  {
    if !PatchConforms(p) then (Err(Failure(500, UpdateErrorMessage)), items)
    else match IndexOfKey(items, NewsId, id)
      case None => (Err(Failure(404, NotFoundMessage)), items)
      case Some(i) =>
        var updated := ApplyPatch(items[i], p, now);
        assert items[i := updated][i] == updated;
        (Ok(updated), items[i := updated])
  }

  /** An update changes no id, so the ids stay unique. */
  lemma UpdateKeepsIds(items: seq<News>, id: nat, p: NewsBody, now: int)
    requires UniqueKeys(items, NewsId)
    ensures var after := UpdateNews(items, id, p, now).1;
      |after| == |items| && (forall i :: 0 <= i < |after| ==> after[i].id == items[i].id)
      && UniqueKeys(after, NewsId)
  {
    var after := UpdateNews(items, id, p, now).1;
    assert forall i :: 0 <= i < |after| ==> after[i].id == items[i].id;
  }

  /**
   * `DELETE /:id`, a soft delete: an unknown id gives 404 and changes nothing; otherwise the
   * record with that id gets `isActive = false` (and the store's `updatedAt`), the number of
   * records stays the same and every other record is untouched.
   */
  function ArchiveNews(items: seq<News>, id: nat, now: int): (r: (Result<News>, seq<News>))
    requires UniqueKeys(items, NewsId)
    ensures !HasKey(items, NewsId, id) ==> r == (Err(Failure(404, NotFoundMessage)), items)
    ensures HasKey(items, NewsId, id) ==>
      && r.0.Ok? && r.0.value.id == id && !r.0.value.isActive && r.0.value in r.1
      && |r.1| == |items|
      && forall i :: 0 <= i < |items| ==>
           r.1[i] == if items[i].id == id then items[i].(isActive := false, updatedAt := now) else items[i]
  {
    match IndexOfKey(items, NewsId, id)
    case None => (Err(Failure(404, NotFoundMessage)), items)
    case Some(i) =>
      var archived := items[i].(isActive := false, updatedAt := now);
      assert items[i := archived][i] == archived;
      (Ok(archived), items[i := archived])
  }

  /** Archiving changes no id, so the ids stay unique. */
  lemma ArchiveKeepsIds(items: seq<News>, id: nat, now: int)
    requires UniqueKeys(items, NewsId)
    ensures var after := ArchiveNews(items, id, now).1;
      |after| == |items| && (forall i :: 0 <= i < |after| ==> after[i].id == items[i].id)
      && UniqueKeys(after, NewsId)
  {
    var after := ArchiveNews(items, id, now).1;
    assert forall i :: 0 <= i < |after| ==> after[i].id == items[i].id;
  }

  /**
   * After archiving, the record stays in the collection and in the admin listing, but no
   * public listing shows it and the public get-by-id answers 404.
   */
  lemma ArchivedIsHidden(items: seq<News>, id: nat, now: int, q: ListQuery)
    requires UniqueKeys(items, NewsId) && HasKey(items, NewsId, id) && WellFormed(q)
    ensures var (reply, after) := ArchiveNews(items, id, now);
      && reply.value in AllNews(after)
      && reply.value !in ListNews(after, q).news
      && GetNews(after, id) == Err(Failure(404, NotFoundMessage))
  {
    var (reply, after) := ArchiveNews(items, id, now);
    ArchiveKeepsIds(items, id, now);
    assert reply.value in multiset(AllNews(after));
    if reply.value in ListNews(after, q).news {
      ListedArePublished(after, q, reply.value);
    }
  }

  // ---------------------------------------------------------------------------------------
  // The collection and the admin endpoints

  /** An admin request after the guard has let it through. */
  datatype AdminRequest =
    | Create(body: NewsBody)
    | Update(id: nat, patch: NewsBody)
    | Archive(id: nat)
    | ListAll

  datatype AdminReply =
    | Rejected(failure: Failure)
    | Written(result: Result<News>)
    | Listing(news: seq<News>)

  class NewsStore {
    var items: seq<News>
    var nextId: nat

    /** Ids are unique and below the next id to hand out. */
    ghost predicate Valid()
      reads this
    {
      && UniqueKeys(items, NewsId)
      && forall i :: 0 <= i < |items| ==> items[i].id < nextId
    }

    constructor ()
      ensures Valid() && items == []
    {
      items := [];
      nextId := 0;
    }

    /** Saves a new item; the store assigns the next id and stamps `now`. */
    method Create(b: NewsBody, now: int) returns (r: Result<News>)
      requires Valid()
      modifies this
      ensures Valid()
      ensures r == CreateNews(b, old(nextId), now)
      ensures items == if r.Ok? then old(items) + [r.value] else old(items)
    {
      r := CreateNews(b, nextId, now);
      if r.Ok? {
        assert r.value.id == nextId;
        AppendAboveKeepsUnique(items, NewsId, r.value);
        items := items + [r.value];
        nextId := nextId + 1;
      }
    }

    method Update(id: nat, p: NewsBody, now: int) returns (r: Result<News>)
      requires Valid()
      modifies this
      ensures Valid() && nextId == old(nextId)
      ensures (r, items) == UpdateNews(old(items), id, p, now)
    {
      var outcome := UpdateNews(items, id, p, now);
      r := outcome.0;
      UpdateKeepsIds(items, id, p, now);
      items := outcome.1;
    }

    method Archive(id: nat, now: int) returns (r: Result<News>)
      requires Valid()
      modifies this
      ensures Valid() && nextId == old(nextId)
      ensures (r, items) == ArchiveNews(old(items), id, now)
    {
      var outcome := ArchiveNews(items, id, now);
      r := outcome.0;
      ArchiveKeepsIds(items, id, now);
      items := outcome.1;
    }

    /**
     * An admin endpoint: `authenticateAdmin` runs first; when it rejects, the reply is its
     * 401 and the collection is untouched, otherwise the request is served.
     */
    method Admin(ex: AuthMiddleware.Exchange, k: AuthMiddleware.Keys, now: int, req: AdminRequest)
      returns (reply: AdminReply)
      requires Valid()
      modifies this, ex
      ensures Valid()
      ensures AuthMiddleware.Guard(ex.authorization, k, now / 1000).Reject? ==>
        && reply == Rejected(AuthMiddleware.Guard(ex.authorization, k, now / 1000).failure)
        && items == old(items) && nextId == old(nextId)
      ensures AuthMiddleware.Guard(ex.authorization, k, now / 1000).Proceed? ==>
        && ex.admin == Some(AuthMiddleware.Guard(ex.authorization, k, now / 1000).claims)
        && match req
           case Create(b) =>
             && reply == Written(CreateNews(b, old(nextId), now))
             && items == if reply.result.Ok? then old(items) + [reply.result.value] else old(items)
           case Update(id, p) => (reply, items) == (Written(UpdateNews(old(items), id, p, now).0), UpdateNews(old(items), id, p, now).1)
           case Archive(id) => (reply, items) == (Written(ArchiveNews(old(items), id, now).0), ArchiveNews(old(items), id, now).1)
           case ListAll => reply == Listing(AllNews(old(items))) && items == old(items)
    {
      var calls := ex.nextCalls;
      AuthMiddleware.AuthenticateAdmin(ex, k, now / 1000);
      if ex.nextCalls == calls {
        reply := Rejected(ex.response.value);
        return;
      }
      match req {
        case Create(b) =>
          var r := Create(b, now);
          reply := Written(r);
        case Update(id, p) =>
          var r := Update(id, p, now);
          reply := Written(r);
        case Archive(id) =>
          var r := Archive(id, now);
          reply := Written(r);
        case ListAll =>
          reply := Listing(AllNews(items));
      }
    }
  }
}
