# CondoCare report and session logic in Dafny

CondoCare is a small backend for tracking maintenance reports in a residential
building. Users log in and receive a signed session token. Protected routes
check that token. Reports can be created, deleted, given a new status or
feedback, liked and disliked. They can also have comments appended, but that
route, as written, always fails validation (see Findings).

This project models the logic of four source files:

- `js.dfy` (module `Js`): the JavaScript conventions the handlers rely on.
  These are absent body fields, `a || b` on falsy values, and `startsWith`.
- `schema.dfy` (module `ReportSchema`): the report and comment records.
  It holds the schema defaults, the priority enumeration, and `Valid`, the
  check that schema validation runs before a report is written.
- `votes.dfy` (module `Votes`): `indexOf`, `splice(i, 1)`, `push` and
  `Math.max(0, n - 1)` on a vote list and its counter. It also holds the
  toggle they implement, written once as `Cast` over the voter's own tally
  and the opposite tally.
- `reports.dfy` (module `Reports`): the report routes.
  - `ReportDocument` is a class for a report loaded from the store. Its
    `ToggleLike`, `ToggleDislike` and `PushComment` methods change its lists
    and counters in place, as the handlers do before `save()`.
  - `Create`, `SetStatus`, `SetFeedback` and `Delete` are functions over the
    store, a sequence of reports.
  - `LikeReport`, `DislikeReport` and the comment routes are methods. Each
    loads a document, changes it and saves it back.
  - `ValidStore` is the invariant every handler keeps. Every report is
    schema-valid and its votes are well tallied. `reportId` and the internal
    id are unique.
- `middleware.dfy` (module `AuthMiddleware`): the bearer-token guard. It reads
  the header, takes `split(" ")[1]`, verifies the token and attaches the user.
- `auth.dfy` (module `AuthRoutes`): the three hard-coded accounts and the
  `/login` handler.

Some things are parameters instead of being modelled:

- The clock (`now`) and a new report's internal id (`docId`).
- The token library: `sign(claims, lifetime)` and
  `verify(token): Option<Claims>`. A `verify` result of none stands for
  "verify would throw".

Not-found results, failed validation and unique-index refusals are values of
the `Reply` datatype. The source answers them with HTTP 404 or 500.

## Model

| member | source | states |
|---|---|---|
| `Js.Truthy` | src/routes/auth.ts:18 | a string field is falsy exactly when it is absent or empty |
| `Js.StartsWith` | src/middleware/auth.ts:12 | `startsWith`: when it holds, the string is the prefix followed by the rest; any string built as the prefix followed by something satisfies it |
| `Js.Or` | src/routes/reports.ts:26 | JavaScript's `or` on two optional strings yields one of its operands; it is truthy exactly when either operand is; a truthy left operand wins, and otherwise the right operand is the result |
| `Js.OrElse` | src/routes/reports.ts:25 | `or` with a string literal on the right yields the literal or the present operand; it is non-empty exactly when either is; a truthy left operand wins |
| `Js.NumberOr` | src/routes/reports.ts:22 | `or` on numbers treats 0 as falsy: the result is non-zero exactly when either is, and a non-zero left operand wins |
| `Votes.IndexOf` | src/routes/reports.ts:85 | `indexOf` gives -1 exactly when the name is absent; otherwise it gives the position of its first occurrence |
| `Votes.RemoveFirst` | src/routes/reports.ts:87 | removing the first occurrence shortens a list that holds the name by one, and leaves any other list unchanged |
| `Votes.RemoveFirstTakesOne` | src/routes/reports.ts:87 | removing the first occurrence takes exactly one copy of the name away and keeps every other entry |
| `Votes.RemoveFirstAt` | src/routes/reports.ts:87 | cutting out the entry at a position that holds the first occurrence of `u` is the same as removing `u`'s first occurrence |
| `Votes.SpliceRemovesFirst` | src/routes/reports.ts:85-87 | `splice(indexOf(u), 1)` gives the same list as removing the first occurrence of `u` |
| `Votes.RemovePushed` | src/routes/reports.ts:87-90 | pushing a new name and then removing its first occurrence gives back the original list |
| `Votes.Toggle` | src/routes/reports.ts:85-94 | the handler's steps (`indexOf`, then `splice` and a clamped decrement, or `push`, an increment and a withdrawal from the opposite list) compute exactly the toggle `Cast` |
| `Votes.Max` | src/routes/reports.ts:88 | `Math.max` is at least both arguments and is one of them |
| `Votes.Withdraw` | src/routes/reports.ts:87-88 | taking a listed user's vote back removes exactly one of their entries and keeps every other user's; the list is one shorter; a positive counter goes down by 1 and a counter <= 0 becomes 0 |
| `Votes.Add` | src/routes/reports.ts:90-91 | `push` keeps the earlier voters, appends the user at the end, and the counter goes up by 1 |
| `Votes.Cast` | src/routes/reports.ts:85-94 | a repeated vote removes one entry, sets the counter to `max(0, n - 1)` and leaves the opposite tally alone; a new vote appends the user at the end and increments the counter; the opposite tally is kept when the user is not in it, and otherwise loses one entry and its counter becomes `max(0, n - 1)` |
| `Votes.CastKeepsCountersNonNegative` | src/routes/reports.ts:88-93 | if both counters are >= 0 before a toggle, both are >= 0 after it, because of the `Math.max(0, …)` clamp |
| `Votes.CastKeepsCountersMatching` | src/routes/reports.ts:87-93 | a counter equal to its list's length before a toggle is still equal to it after |
| `Votes.CastKeepsOtherVoters` | src/routes/reports.ts:85-94 | a toggle by `u` leaves every other user's entries in both lists unchanged |
| `Votes.CastKeepsExclusive` | src/routes/reports.ts:85-94 | if `u` is listed at most once overall, that still holds after the toggle; `u` holds an own vote exactly when they did not before, and never an opposite vote |
| `Votes.CastTwiceRestores` | src/routes/reports.ts:85-94 | two toggles by a user who had not voted restore both tallies exactly, provided the own counter is >= 0 (a negative counter is clamped to 0 on the way back) |
| `ReportSchema.ValidComment` | src/models/Report.ts:29-32 | the comment schema's required `commentId`, `author` and `text`: each present and non-empty |
| `ReportSchema.Valid` | src/models/Report.ts:36-49 | the report schema's validators: `category`, `detail` and `owner` required (present and non-empty), `priority` in the enum, and every comment valid |
| `ReportSchema.NewReport` | src/models/Report.ts:36-51 | a new report carries exactly the given internal id, `reportId`, category, priority, detail, owner and status; it has empty vote lists, zero counters, empty feedback, no dates and no comments, so its votes are well tallied; it is valid exactly when category, detail and owner are non-empty and the priority is in the enum |
| `ReportSchema.AppendCommentValid` | src/models/Report.ts:29-34 | appending a comment keeps a report valid exactly when the comment has a non-empty `commentId`, author and text |
| `Reports.Liked` | src/routes/reports.ts:85-94 | a like changes only the two vote lists and counters; validity is unchanged, and non-negative counters stay non-negative |
| `Reports.Disliked` | src/routes/reports.ts:109-118 | the same for a dislike |
| `Reports.LikeKeepsTally` | src/routes/reports.ts:85-94 | a like keeps voting exclusive for every user, keeps the counters equal to the list lengths, and keeps them non-negative |
| `Reports.DislikeKeepsTally` | src/routes/reports.ts:109-118 | a dislike keeps the same three facts |
| `Reports.LikeFlipsMembership` | src/routes/reports.ts:85-94 | for a user listed at most once overall, a like puts them in `likedBy` exactly when they were not there before, and removes them from `dislikedBy` |
| `Reports.DislikeFlipsMembership` | src/routes/reports.ts:109-118 | the mirror statement for a dislike |
| `Reports.LikeTwiceRestores` | src/routes/reports.ts:85-94 | liking twice, by a user in neither list, restores the whole report when `likesCount` >= 0 |
| `Reports.DislikeTwiceRestores` | src/routes/reports.ts:109-118 | disliking twice, by a user in neither list, restores the whole report when `dislikesCount` >= 0 |
| `Reports.DislikeAfterLike` | src/routes/reports.ts:109-118 | in a well-tallied report, a user who liked and then dislikes moves the vote: likes go down by 1, dislikes go up by 1, and they are listed only among the dislikers |
| `Reports.LikeAfterDislike` | src/routes/reports.ts:85-94 | in a well-tallied report, the reverse move: dislikes go down by 1, likes go up by 1, and the user is listed only among the likers |
| `Reports.ReportDocument.Hydrate` | src/routes/reports.ts:82 | a loaded document holds exactly the stored record |
| `Reports.ReportDocument.ToggleLike` | src/routes/reports.ts:85-94 | the document's vote lists and counters are updated in place, and the document becomes `Liked` of its old state: only those four fields change |
| `Reports.ReportDocument.ToggleDislike` | src/routes/reports.ts:109-118 | the document becomes `Disliked` of its old state: only its vote lists and counters change |
| `Reports.ReportDocument.PushComment` | src/routes/reports.ts:133-137 | `comments.push` appends one comment at the end and changes no other field |
| `Reports.ReportDocument.Validate` | src/models/Report.ts:29-43 | the schema check returns true exactly when the document satisfies `Valid`: required strings non-empty, priority in the enum, every comment valid |
| `Reports.ValidStore` | src/models/Report.ts:36-49 | the store invariant: every saved report passes the schema validators and has well-tallied votes, and no two reports share a `reportId` (the `unique: true` index) or an internal id |
| `Reports.FindReport` | src/routes/reports.ts:52 | the `{ reportId: id }` lookup finds nothing exactly when no report has the id; otherwise it finds the first report with it |
| `Reports.First` | src/routes/reports.ts:82 | a query finds the first report that matches, or nothing exactly when no report matches |
| `Reports.FoundIsUnique` | src/models/Report.ts:38 | in a store with unique `reportId`s, the lookup finds the one report with that id |
| `Reports.CallerName` | src/routes/reports.ts:26 | `req.user?.username` is present exactly when a user is attached, and is then that user's name |
| `Reports.Draft` | src/routes/reports.ts:20-28 | create's document: `reportId` defaults to the clock when absent or 0, priority to "medium", owner to the caller; the internal id is the one given, and category and detail are the body's; the status is always the intake status; the remaining fields are schema defaults; it is valid exactly when category and detail are present, an owner is found, and a supplied priority is in the enum |
| `Reports.DraftIgnoresStatus` | src/routes/reports.ts:20-27 | a `status` in the request body has no effect on the created report |
| `Reports.Taken` | src/models/Report.ts:38 | the unique indexes on `reportId` and the internal id: some stored report already has the draft's `reportId` or internal id |
| `Reports.Create` | src/routes/reports.ts:21-29 | create succeeds exactly when the document is valid and neither of its ids is taken, and then appends it; otherwise it reports the failure and leaves the store unchanged; it keeps `ValidStore` |
| `Reports.CreateRefusesExistingId` | src/models/Report.ts:38 | creating a report whose `reportId` is already stored fails and changes nothing |
| `Reports.SetStatus` | src/routes/reports.ts:51-57 | not found exactly when no report has the id, and then the store is unchanged; otherwise the first report with the id is replaced by itself with the body's status (kept as it was when the body has none), and that updated report is the reply; it keeps `ValidStore` |
| `Reports.SetFeedback` | src/routes/reports.ts:66-72 | the same for the feedback field |
| `Reports.SetStatusTouchesOnlyItsReport` | src/routes/reports.ts:51-57 | in a valid store a status update keeps the store's length, changes the one report with the id to carry the new status and returns it, and leaves every other report as it was |
| `Reports.SetFeedbackTouchesOnlyItsReport` | src/routes/reports.ts:66-72 | the same for feedback |
| `Reports.RemoveAt` | src/routes/reports.ts:39-40 | removing one report keeps the others in order and keeps `ValidStore` |
| `Reports.Delete` | src/routes/reports.ts:38-44 | as written: a cast failure (the 500 path) exactly when `Number(id)` is NaN, or when no `reportId` matches and the raw text is not an internal id; not found exactly when the number is valid, the text casts, and neither id matches; otherwise one matching report is removed and the reply echoes the raw id; only a deletion changes the store; it keeps `ValidStore` |
| `Reports.DeleteUnknownNumberFails` | src/routes/reports.ts:39-44 | deleting the unknown numeric id 999 from an empty store fails a cast and never answers "Report not found" |
| `Reports.DeleteEitherId` | src/routes/reports.ts:38-42 | as intended: never a cast failure; not found exactly when no report matches a usable id; otherwise one report matching a usable id is removed; it keeps `ValidStore` |
| `Reports.DeleteEitherIdAgrees` | src/routes/reports.ts:38-42 | wherever the route as written does not fail a cast, the intended version gives the same reply and store |
| `Reports.DeletePrefersReportId` | src/routes/reports.ts:39-40 | in a valid store, when a report has that `reportId`, it is the one deleted, whatever the internal-id fallback would match |
| `Reports.DeletedIsGone` | src/routes/reports.ts:39-41 | in a valid store, after a report is deleted by `reportId`, a lookup of that id finds nothing |
| `Reports.Save` | src/routes/reports.ts:95 | `save()` writes the document back at its position exactly when it passes validation; otherwise the store is unchanged |
| `Reports.LikeReport` | src/routes/reports.ts:79-100 | not found exactly when no report has the id, and then the store is unchanged; otherwise the stored report becomes `Liked` of itself; in a valid store the save never fails and `ValidStore` is kept |
| `Reports.DislikeReport` | src/routes/reports.ts:103-124 | the same with `Disliked` |
| `Reports.NewComment` | src/routes/reports.ts:133-137 | the comment's author is the body's author, else the caller's username, else "unknown", so it is never empty; the comment's timestamp is the clock |
| `Reports.CommentWithoutIdIsRefused` | src/routes/reports.ts:133-138 | a report with a comment pushed without a `commentId` never passes validation |
| `Reports.CommentReport` | src/routes/reports.ts:127-143 | as written: not found exactly when no report has the id; when one does, the save is refused; the store never changes |
| `Reports.CommentReportWithId` | src/routes/reports.ts:127-143 | with a comment id assigned: not found exactly when no report has the id; otherwise, if the report with the comment appended after the earlier ones is valid, it is saved in place and returned; if not, the reply is `Invalid` and the store is unchanged; on a valid report it succeeds exactly when the id and text are non-empty; it keeps `ValidStore` |
| `AuthMiddleware.Split` | src/middleware/auth.ts:18 | `split(" ")` gives at least one field, and at least two when the string contains a space; no field contains a space |
| `AuthMiddleware.SplitCount` | src/middleware/auth.ts:18 | there is exactly one more field than there are separators |
| `AuthMiddleware.JoinSplit` | src/middleware/auth.ts:18 | joining the fields with the separator gives back the string |
| `AuthMiddleware.FirstField` | src/middleware/auth.ts:18 | the first field is the longest space-free prefix |
| `AuthMiddleware.SplitLeadingField` | src/middleware/auth.ts:18 | a space-free word followed by a space is split off whole |
| `AuthMiddleware.BearerToken` | src/middleware/auth.ts:11-18 | a token is extracted exactly when the header is present and starts with "Bearer " |
| `AuthMiddleware.BearerTokenIsFirstWord` | src/middleware/auth.ts:18 | the extracted token is the text after "Bearer " up to the next space or the end |
| `AuthMiddleware.SecondField` | src/middleware/auth.ts:18 | in `p a b`, where `p` and `a` hold no space, the second field is `a` |
| `AuthMiddleware.BearerTokenIsSecondField` | src/middleware/auth.ts:18 | for "Bearer a b" the verifier is asked about "a" |
| `AuthMiddleware.AuthRequest.constructor` | src/middleware/auth.ts:6-8 | a request arrives with no user attached and no call to the next handler yet |
| `AuthMiddleware.Authenticate` | src/middleware/auth.ts:10-25 | a missing or non-bearer header gives 401 "No token provided"; a rejected token gives 401 "Invalid token"; both leave the request untouched and do not call the next handler; a verified token sets `req.user` to its claims and calls the next handler exactly once |
| `AuthRoutes.Users` | src/routes/auth.ts:8-12 | the three hard-coded accounts with their usernames, plain-text passwords, roles and first names |
| `AuthRoutes.Matches` | src/routes/auth.ts:23 | the `find` callback: the account's username and password both equal the inputs |
| `AuthRoutes.Find` | src/routes/auth.ts:23 | `find` returns the first account whose username and password both equal the inputs, or nothing exactly when none does |
| `AuthRoutes.UsernamesDistinct` | src/routes/auth.ts:8-12 | no two hard-coded accounts share a username |
| `AuthRoutes.AtMostOneMatch` | src/routes/auth.ts:8-23 | at most one account can match a login |
| `AuthRoutes.Login` | src/routes/auth.ts:15-44 | 400 exactly when the username or password is missing or empty; 401 exactly when both are given and no account matches both; otherwise the token signs exactly the matched account's `{username, role}` with a 24-hour lifetime, and the profile is `{id: username, username, role, firstName}`, which has no password field |
| `AuthRoutes.LoginIsDetermined` | src/routes/auth.ts:23-43 | a login that matches the i-th account returns exactly that account's token and profile |

## Left out

- The list route, `GET /` (src/routes/reports.ts:8-15), is left out. It only returns the store sorted by the automatic `createdAt` timestamp, and those timestamps are not modelled.
- The automatic `createdAt`/`updatedAt` timestamps of a report are left out. They are store bookkeeping, and no handler reads them.
- The route parameter's text is not parsed. `Reports.Delete` takes `Number(id)` as an optional integer (none for NaN). It also takes a flag saying whether the raw text casts to an internal id, because the store's cast rules are those of a foreign library. The status, feedback, like, dislike and comment routes take the number as an `int`. A NaN there makes the store's query throw (a 500), which those routes do not model.
- Store exceptions and the 500 responses that echo their messages are left out, except for three. Failed validation is modelled as `Invalid`, a unique-index refusal as `DuplicateKey`, and a failed cast of the delete route's parameter as `CastFailure`.
- Request-body fields are modelled as absent or present strings (or an integer for `reportId`). For `Reports.SetStatus` and `Reports.SetFeedback`, an absent field is dropped from the update, as current versions of the store's object mapper do, so the report is returned unchanged. Older versions that write null instead are not modelled. Non-string values that the schema would cast are left out. The like and dislike routes take `username` as a string; an absent `username` is not modelled.
- `Reports.ReportDocument.Validate` checks the whole document. The store's validation checks only modified and required paths. The two agree on every report of a `ValidStore`.
- `Reports.Delete`: when only the internal id matches, the contract says that a report with that id is removed but not which one. Internal ids are unique in a `ValidStore`, so there is only one.
- Token signing, signature checking and expiry are those of a foreign library. They are parameters (`sign`, `verify`). The 24-hour lifetime is modelled only as the number passed to `sign`.
- Concurrency is left out. Each handler is atomic here, so the lost-update race between loading a report and saving it in the toggle routes is not modelled.
- HTTP status codes and JSON serialisation become the `Reply`, `LoginReply` and `Rejection` datatypes.
- Process startup, the database connection and seeding (index.ts), and the user schema and user-management operations (src/models/User.ts) are not part of this model. The login route never reads the user schema; it uses the hard-coded table.

## Findings

| source | as written | input that shows it | evidently intended | confidence | as-written member | corrected member |
|---|---|---|---|---|---|---|
| src/routes/reports.ts:133-137 | the comment route pushes `{author, text, createdAt}` without a `commentId`, but the comment schema (src/models/Report.ts:30) requires one, so `save()` always fails validation | any existing `reportId` with any text: the reply is a validation failure (a 500) and no comment is stored | a comment id is assigned, and the comment is appended after the earlier ones | medium (not executed) | `Reports.CommentReport` | `Reports.CommentReportWithId` |
| src/routes/reports.ts:39-44 | the fallback `findByIdAndDelete(id)` runs whenever no `reportId` matches, and it throws when the text is not an internal id; for an internal id that contains a hex letter, `Number(id)` is NaN and the first query throws; either way the route answers 500, not 404 | `DELETE /api/reports/999` with no report 999: the fallback cannot cast "999" and the reply is a 500 where "Report not found" (404) was meant | an id that matches nothing is answered "Report not found", and a report is deleted by whichever of its ids the parameter gives | medium (not executed) | `Reports.Delete` | `Reports.DeleteEitherId` |
