# School portal backend: calendar, news and admin guard

This project models the core of the school portal's backend in Dafny:

- the public and admin endpoints of the **calendar** resource: the month listing with its overlap window, today, upcoming, create with the type-to-colour table, update, hard delete and admin list-all;
- the public and admin endpoints of the **news** resource: the active/category listing with newest-first pagination, latest five, get-by-id that hides archived items, create, update, archive as a soft delete, and admin list-all;
- the **authentication middleware**: extracting the bearer token, the guard that answers 401 or passes control on, and the admin login that issues 24-hour claims;
- the two **record schemas**, CalendarEvent and News: their enums, required paths and defaults.

Layout, one module per file:

- `common.dfy` (`Common`): `Option`, `Result`, the error `Failure`, JavaScript truthiness of request strings, `String.prototype.trim`, and the audience enum shared by both schemas.
- `sequences.dfy` (`Sequences`): the collection operations the store performs.
  - A filter.
  - A stable sort by an integer key.
  - skip/limit.
  - The `n` smallest, or largest, by key among the elements that satisfy a test.
  - Lookup by unique id.
- `dates.dfy` (`Dates`): the proleptic Gregorian calendar in milliseconds, `new Date(y, m, d)` with month carry-over, and month and day windows.
- `calendar_event.dfy` (`CalendarEventSchema`) and `news.dfy` (`NewsSchema`): the schemas. Each has a defaulting constructor and the partial update applied by an update request.
- `auth_middleware.dfy` (`AuthMiddleware`): the guard and the login.
- `calendar_routes.dfy` (`CalendarRoutes`) and `news_routes.dfy` (`NewsRoutes`): the routes.

The routes are written in two parts:

- Each read and each write is a function of the stored collection and the request.
- A class `CalendarStore` or `NewsStore` holds the collection in a `seq` field. Its methods change that field, keep ids unique, and run every admin request behind `AuthenticateAdmin`. `AuthenticateAdmin` updates an `Exchange` object, which stands for the request, the response and the `next` callback.

Signing and decoding tokens are abstract: a `Keys` value pairs a signing function with a decoding function. The `Sound` predicate says that decoding a signed payload gives it back, and that a signed token is never empty and never holds a space (as a JWT, three base64url parts joined by dots, never does); the login-to-guard lemma relies on both. Calendar instants are milliseconds since the epoch. Token times are whole seconds.

## Model

| member | source | states |
|---|---|---|
| Common.Trim | backend/models/CalendarEvent.js:4-8 | the result is a contiguous slice of the input with only whitespace before and after it, has no leading or trailing whitespace, and is empty exactly when the input is all whitespace (the `trim: true` applied to every title) |
| Common.TrimIdempotent | backend/models/News.js:4-8 | trimming an already trimmed title changes nothing |
| Common.ParseAudience | backend/models/CalendarEvent.js:35-39 | an audience string is accepted exactly when it is the name of one of the five audiences, and it maps to that audience |
| Common.ParseAudiences | backend/models/News.js:23-27 | an audience array is accepted iff every element is; the result names the same audiences in the same order |
| CalendarEventSchema.ParseEventType | backend/models/CalendarEvent.js:12-16 | the type enum: accepted iff the string is one of the six type names, and it maps back to that name |
| CalendarEventSchema.ParseFrequency | backend/models/CalendarEvent.js:40-47 | the recurrence enum: accepted iff the string is one of the five frequency names |
| CalendarEventSchema.NewCalendarEvent | backend/models/CalendarEvent.js:3-58 | saving succeeds iff the body conforms (title present and non-blank after trim, valid type, startDate present, enum arrays valid); the record holds the trimmed title, the given values, and the defaults allDay=true, color `#1a237e`, audience `['all']`, frequency `none` with the given recurrence end date (none without a `recurring` object), createdBy `Administrator`, isActive=true, with both timestamps `now` |
| CalendarEventSchema.ApplyPatch | backend/routes/calendarRoutes.js:149-153 | an update keeps id, createdAt and recurring; it stamps updatedAt, trims a new title, and takes the type and audience paths present in the patch, the rest from the stored record |
| CalendarEventSchema.PatchPlainPaths | backend/routes/calendarRoutes.js:149-153 | every unvalidated path (dates, allDay, color, createdBy, description, location, isActive) takes the patch's value when present and keeps the stored one otherwise |
| CalendarEventSchema.EmptyPatch | backend/routes/calendarRoutes.js:149-153 | a patch that sets no path changes nothing but updatedAt |
| Dates.MonthWindowLength | backend/routes/calendarRoutes.js:14-15 | the month window `[Date(year, month-1, 1), Date(year, month, 1))` spans 28 to 31 whole days |
| Dates.DecemberRollover | backend/routes/calendarRoutes.js:14-15 | month 12's window ends at the start of January of the following year |
| Dates.StartOfDay | backend/routes/calendarRoutes.js:51-52 | today 00:00 is the last day boundary at or before `now` |
| Dates.DayWindow | backend/routes/calendarRoutes.js:51-54 | the today window contains `now` and lasts exactly one day |
| Dates.Instants2024 | backend/routes/calendarRoutes.js:14-15 | the instants of 2024-02-20, 2024-03-01, 2024-03-05 and 2024-04-01 agree with the calendar |
| CalendarRoutes.ListEvents | backend/routes/calendarRoutes.js:7-46 | the month listing is sorted by ascending startDate and holds each stored event exactly as often as it is stored when it is active, overlaps the month (if year and month are given) and matches the type filter, and no other event |
| CalendarRoutes.MonthListing | backend/routes/calendarRoutes.js:10-27 | with year and month given, an event is listed iff it is active, of the type asked for, and starts inside the month or started before it with endDate at or after the month's start; an event without endDate is listed only by starting inside the month |
| CalendarRoutes.ListingWithoutMonth | backend/routes/calendarRoutes.js:13-33 | without both year and month, the listing is the active events of the type asked for; an absent, empty or `'all'` type constrains nothing |
| CalendarRoutes.March2024Example | backend/routes/calendarRoutes.js:13-27 | for March 2024 an event running from 20 February to 5 March is listed, and an event starting on 1 April is not |
| CalendarRoutes.TodayEvents | backend/routes/calendarRoutes.js:49-76 | sorted by startDate; exactly the active events that overlap `[today 00:00, tomorrow 00:00)` by the same overlap rule |
| CalendarRoutes.UpcomingEvents | backend/routes/calendarRoutes.js:79-98 | at most 10 events, sorted by startDate, all stored (never more often than stored), active and starting at or after today 00:00; an upcoming event is left out only when 10 events are returned and none starts later than it |
| CalendarRoutes.AllEvents | backend/routes/calendarRoutes.js:202-212 | every stored event, active or not, with its multiplicity, sorted by startDate |
| CalendarRoutes.ColorFor | backend/routes/calendarRoutes.js:117-126 | the colour table: exam `#ff6b6b`, holiday `#4caf50`, event `#2196f3`, deadline `#ff9800`, meeting `#9c27b0`, sports `#00bcd4`, and `#1a237e` for any other type string |
| CalendarRoutes.WithColor | backend/routes/calendarRoutes.js:117-127 | the saved body differs from the request only in color, which is kept when truthy and taken from the table otherwise |
| CalendarRoutes.CreateEvent | backend/routes/calendarRoutes.js:104-144 | 400 with "Title, type, and start date are required" iff title or type is missing or empty or startDate is missing; otherwise 500 "Error creating event" or the new record, with the trimmed title, the given type and start, the given id, and the colour rule |
| CalendarRoutes.CreateSaves | backend/routes/calendarRoutes.js:129-130 | create succeeds iff the route check passes and the schema accepts the body with its colour filled in; the reply is the record the schema builds |
| CalendarRoutes.ExamAndHolidayColors | backend/routes/calendarRoutes.js:117-126 | an exam created without a colour gets `#ff6b6b`, a holiday `#4caf50` |
| CalendarRoutes.CreateDefaults | backend/models/CalendarEvent.js:24-55 | a body with only title, type and startDate is saved with allDay, isActive, audience `['all']`, no recurrence, createdBy `Administrator` and the type's colour |
| CalendarRoutes.UpdateEvent | backend/routes/calendarRoutes.js:147-174 | a patch the validators reject (a blank title, an unknown type, audience or `recurring.frequency`) gives 500 and changes nothing; an unknown id gives 404 and changes nothing; otherwise the record with that id is patched, every other record is unchanged, and the reply is the patched record |
| CalendarRoutes.BadFrequencyUpdate | backend/models/CalendarEvent.js:40-44 | an update whose `recurring.frequency` is not one of the five frequency names fails with 500 "Error updating event" and changes nothing, on any id |
| CalendarRoutes.DeleteEvent | backend/routes/calendarRoutes.js:177-199 | an unknown id gives 404 and changes nothing; otherwise the record with that id is removed and no other: one record fewer, and the remaining ones are exactly the stored ones with a different id |
| CalendarRoutes.CalendarStore.Create | backend/routes/calendarRoutes.js:129-130 | the new record is appended with the next id when create succeeds, and the collection is unchanged on 400 or 500; ids stay unique |
| CalendarRoutes.CalendarStore.Update | backend/routes/calendarRoutes.js:149-153 | the collection becomes the one `UpdateEvent` describes; ids stay unique |
| CalendarRoutes.CalendarStore.Delete | backend/routes/calendarRoutes.js:179 | the collection becomes the one `DeleteEvent` describes; ids stay unique |
| CalendarRoutes.CalendarStore.Admin | backend/routes/calendarRoutes.js:100-101 | the guard reads the clock in whole seconds (`now / 1000` of the request's millisecond clock); when it rejects, the reply is its 401 and the collection is unchanged; otherwise the claims are attached to the request and the create (stamped with the same clock), update, delete or list-all is served as specified above |
| NewsSchema.ParseCategory | backend/models/News.js:13-17 | the category enum: accepted iff the string names one of the five categories |
| NewsSchema.ParsePriority | backend/models/News.js:18-22 | the priority enum: accepted iff the string names one of the four priorities |
| NewsSchema.NewNews | backend/models/News.js:3-50 | saving succeeds iff title (after trim) and content are non-empty and the enum paths are valid; the record holds the trimmed title, the given values, and the defaults category `general`, priority `medium`, audience `['all']`, no attachments, publishedBy `Administrator`, isActive=true, notificationSent=false, with both timestamps `now` |
| NewsSchema.ApplyPatch | backend/routes/newsRoutes.js:112-116 | an update keeps id and createdAt and stamps updatedAt; each path present in the patch overwrites the stored one (title trimmed, enums parsed) and every other path is kept; an empty patch changes only updatedAt |
| NewsRoutes.CeilDiv | backend/routes/newsRoutes.js:30 | `Math.ceil(total / limit)`: the fewest pages of `limit` items that hold `total` items |
| NewsRoutes.Matching | backend/routes/newsRoutes.js:10-19 | newest first, and exactly the active stored items of the requested category (with their multiplicity); an absent, empty or `'all'` category constrains nothing |
| NewsRoutes.ListNews | backend/routes/newsRoutes.js:7-39 | `total` counts every matching item, `page` is the requested page (default 1), `totalPages` is `ceil(total / limit)` (limit default 20); the page holds exactly `min(limit, total - (page-1)*limit)` items (none past the end), and its `i`-th item is the matching item at position `(page-1)*limit + i` |
| NewsRoutes.ListedArePublished | backend/routes/newsRoutes.js:10-14 | every item on any page is stored, active and of the requested category |
| NewsRoutes.PageStartsInside | backend/routes/newsRoutes.js:16-30 | page `p` starts inside the matching items iff `p <= ceil(total / limit)` |
| NewsRoutes.PageNonEmptyIff | backend/routes/newsRoutes.js:16-30 | a page is non-empty iff its number is at most `totalPages` |
| NewsRoutes.PaginationExample | backend/routes/newsRoutes.js:9-30 | 25 matching items with limit 20 give 2 pages, and page 2 holds 5 items |
| NewsRoutes.LatestNews | backend/routes/newsRoutes.js:42-55 | at most 5 items, newest first, all stored (never more often than stored) and active; an active item is left out only when 5 are returned and none is older than it |
| NewsRoutes.GetNews | backend/routes/newsRoutes.js:58-74 | the stored active item with that id; 404 "News not found" iff no active item has that id, whether it is missing or archived |
| NewsRoutes.AllNews | backend/routes/newsRoutes.js:169-179 | every stored item, archived or not, with its multiplicity, newest first |
| NewsRoutes.CreateNews | backend/routes/newsRoutes.js:80-107 | 400 "Title and content are required" iff title or content is missing or empty; otherwise 500 "Error creating news" or the new record, with the given id, the trimmed title, the given content and `createdAt` now |
| NewsRoutes.CreateSaves | backend/routes/newsRoutes.js:92-93 | create succeeds iff the route check passes and the schema accepts the body; the reply is the record the schema builds |
| NewsRoutes.CreateDefaults | backend/models/News.js:13-47 | a body with only title and content is saved with category `general`, priority `medium`, audience `['all']`, no attachments, publishedBy `Administrator`, isActive and no notification sent |
| NewsRoutes.UpdateNews | backend/routes/newsRoutes.js:110-137 | a patch the validators reject gives 500 and changes nothing; an unknown id gives 404 and changes nothing; otherwise only the record with that id is patched and the reply is the patched record |
| NewsRoutes.UpdateKeepsIds | backend/routes/newsRoutes.js:112-116 | an update changes no id, so ids stay unique |
| NewsRoutes.ArchiveNews | backend/routes/newsRoutes.js:140-166 | an unknown id gives 404 and changes nothing; otherwise the record count stays the same, the record with that id gets isActive=false and a new updatedAt, and every other record is unchanged |
| NewsRoutes.ArchiveKeepsIds | backend/routes/newsRoutes.js:142-146 | archiving changes no id, so ids stay unique |
| NewsRoutes.ArchivedIsHidden | backend/routes/newsRoutes.js:142-146 | after archiving, the item is still in the admin listing, is on no page of the public listing, and get-by-id answers 404 |
| NewsRoutes.NewsStore.Create | backend/routes/newsRoutes.js:92-93 | the new item is appended with the next id when create succeeds, and the collection is unchanged on 400 or 500; ids stay unique |
| NewsRoutes.NewsStore.Update | backend/routes/newsRoutes.js:112-116 | the collection becomes the one `UpdateNews` describes; ids stay unique |
| NewsRoutes.NewsStore.Archive | backend/routes/newsRoutes.js:142-146 | the collection becomes the one `ArchiveNews` describes; ids stay unique |
| NewsRoutes.NewsStore.Admin | backend/routes/newsRoutes.js:76-77 | the guard reads the clock in whole seconds (`now / 1000` of the request's millisecond clock); when it rejects, the reply is its 401 and the collection is unchanged; otherwise the claims are attached to the request and the request (a create stamped with the same clock) is served as specified above |
| AuthMiddleware.Split | backend/middleware/authMiddleware.js:10 | `split(' ')` gives at least one piece and no piece contains a space |
| AuthMiddleware.JoinSplit | backend/middleware/authMiddleware.js:10 | joining the pieces with single spaces restores the header |
| AuthMiddleware.TokenOf | backend/middleware/authMiddleware.js:10 | no header gives no token; otherwise the token is the second space-separated piece when there is one and it is non-empty, and nothing otherwise; a token is never empty and never holds a space |
| AuthMiddleware.MissingTokenRejected | backend/middleware/authMiddleware.js:10-17 | a missing header, a header without a space, or an empty second piece is rejected with 401 "Access denied. No token provided." |
| AuthMiddleware.BearerToken | backend/middleware/authMiddleware.js:10 | for `scheme + " " + token` (optionally followed by more space-separated text) the token is the second piece, whatever the scheme |
| AuthMiddleware.Verify | backend/middleware/authMiddleware.js:19-20 | a token is accepted iff it decodes under the keys and, when it carries `exp`, the clock is before it |
| AuthMiddleware.Guard | backend/middleware/authMiddleware.js:9-29 | the request proceeds iff a token is present and verifies, with the decoded claims; otherwise 401 with "Access denied. No token provided." when no token was found and "Invalid or expired token." when it did not verify |
| AuthMiddleware.AuthenticateAdmin | backend/middleware/authMiddleware.js:9-29 | on acceptance `req.admin` is set to the claims and `next` is called exactly once, with no response written; on rejection the 401 is written, `next` is not called and `req.admin` is untouched |
| AuthMiddleware.ConfiguredLogin | backend/middleware/authMiddleware.js:3-6 | with neither environment value set (or both empty), login succeeds iff the pair is `admin` / `DanferSchool@2024`; with both set and non-empty, login succeeds iff the pair is the environment's |
| AuthMiddleware.AdminClaims | backend/middleware/authMiddleware.js:34-38 | the claims are `{username, role: 'admin'}`, issued now and expiring 24 hours later |
| AuthMiddleware.LoginAdmin | backend/middleware/authMiddleware.js:32-42 | login succeeds iff both username and password equal the configured pair, and the token is the signed admin claims; otherwise "Invalid credentials" |
| AuthMiddleware.LoginTokenLifetime | backend/middleware/authMiddleware.js:34-39 | with sound keys, a token from a successful login sent as `Bearer <token>` passes the guard with the login's claims before 24 hours after issue, and is rejected as invalid or expired from then on |
| AuthMiddleware.LoginFailureUniform | backend/middleware/authMiddleware.js:41 | a wrong username, a wrong password, or both give the same reply |

## Left out

- Local time zone and daylight saving: `new Date(y, m, d)` and `setHours(0, 0, 0, 0)` use the server's local time. The model computes in UTC.
- Request-body dates arrive as already-parsed instants (`startDate: Option<int>`). A JSON `startDate: 0` is falsy, so the route answers 400 there; the model treats it as present and saves it.
- A `startDate` (or `endDate`) string that Mongoose cannot cast to a Date fails the save with 500; the model has no unparsed date strings, so that path is not modelled.
- A query year outside the range of JavaScript dates gives an Invalid Date, which the query then fails on with 500 "Server error"; the model's calendar is unbounded and answers for every year.
- `parseInt` of raw query strings (NaN, non-numeric or non-positive values): year, month, limit and page arrive as integers, and limit and page are at least 1 when given (`NewsRoutes.WellFormed`).
- Casting a malformed `:id` to an ObjectId fails with 500. Ids are naturals here, so that error path is not modelled.
- Update bodies that set a path to `null`, or unset it, are not modelled. A patch only sets paths or leaves them alone.
- CalendarEventSchema.ApplyPatch: the frequency of a `recurring` object in an update body is validated (an unknown one gives 500), but the object is otherwise ignored and the stored recurrence is kept. Mongoose would replace the whole sub-document.
- Storage errors other than validation failures: a connection or driver error would give the route's 500 reply.
- The `Server error` replies of the read routes come only from storage errors. The reads here always succeed.
- The order MongoDB gives to records with equal sort keys is unspecified. The model uses a stable sort that keeps stored order.
- AuthMiddleware.LoginAdmin: the model assumes a configured signing secret. With `JWT_SECRET` unset, `jwt.sign` throws, so login fails with the login route's 500, and `jwt.verify` rejects every token, so the guard answers 401 "Invalid or expired token." to every request that carries one; here `sign` is total and login with the right pair always issues a token.
- Token signing and signature checking are cryptography. They are abstract `Keys` functions, and only expiry is checked in the model.
- The guard does not look at the `role` claim, and neither does the model.
- Concurrency between simultaneous requests is not modelled; each request runs alone against the collection.
- The JSON envelope (`success`, messages on success) is not modelled. Replies are reduced to a status with a message, or the returned data.
- `server.js` (start-up, static files, database connection) is not part of this model.
- `backend/routes/authRoutes.js`, the HTTP wrapper around `loginAdmin`, is not part of this model.
- The colour table is a plain JavaScript object, so a type string such as `constructor` would look up an inherited property. Such a type fails the enum validation anyway, so `ColorFor` maps every string outside the table to the default.
