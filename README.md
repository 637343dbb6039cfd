# Companion access and bookmark service — a Dafny model

This project models the server-side companion service of the Converso web
application (`lib/actions/companion.action.ts`): the plan-based creation quota,
the companion listing with its search filter and pagination, the bookmark
table with its add / remove / presence operations and the joined listing of
bookmarked companions, and the two session-history feeds.

The remote store and the identity provider are replaced by explicit values:

- the caller's identity is an argument `userId: Option<string>`. An absent
  value and the empty string are both "not signed in", as JavaScript's `!userId`
  treats them;
- the identity provider's `has({plan})` / `has({feature})` check is an
  `Entitlements` value holding plan names and feature flags;
- the `companions` and `session_history` tables are sequences of rows, and the
  foreign-key join `companions: companion_id (*)` looks up the row of the
  `companions` sequence whose `id` is the key, yielding null (`None`) when
  there is none;
- the `bookmarks` table is the `rows` field of a `BookmarkTable` object, which
  `AddBookmark` and `RemoveBookmark` update in place;
- a failing store call is an argument `fault: Option<string>`. When present,
  the operation returns `Err(StoreFailed(...))` carrying the store's message
  verbatim.

Modules: `Common` (options, results, the companion record, the service's
errors and their messages, the join and null-dropping helpers), `Text`
(case-insensitive substring matching, the meaning of `ilike '%x%'`),
`Quota`, `Listing`, `Bookmarks` and `Sessions`.

In these places the model follows what the code does, not what one might
expect:

- `isBookmarked` and the existence check in `addBookmark` use `maybeSingle()`.
  So they fail, rather than answer, when a pair has more than one row. The
  model returns `Err` in that case. `addBookmark` prefixes the message with
  "Failed to check existing bookmark: ".
- The session feeds do not drop null joins (only `getBookmarkedCompanions`
  filters with `filter(Boolean)`). So they return `seq<Option<Companion>>`.
- An empty `subject` or `topic` counts as absent, because the code tests them
  for truthiness.

## Model

| member | source | states |
|---|---|---|
| `Text.ContainsIgnoringCaseIff` | lib/actions/companion.action.ts:33-34 | the `%x%` case-insensitive match holds exactly when, at some position of the column value, every character of the pattern equals the value's character after lower-casing |
| `Text.ContainsIff` | lib/actions/companion.action.ts:36 | the position-by-position substring search succeeds exactly when the pattern occurs at some index |
| `Quota.Limit` | lib/actions/companion.action.ts:120-128 | the limit is 3 exactly when `3_companion_limit` is present, 10 exactly when only `10_companion_limit` is, and 0 with neither flag |
| `Quota.NewCompanionPermissions` | lib/actions/companion.action.ts:116-143 | the pro plan gets `true` before any count query, even one that would fail; otherwise a store error is thrown, or permission is `count <= limit` |
| `Quota.ProIgnoresCount` | lib/actions/companion.action.ts:122-123 | for a pro caller the answer is `true` and does not depend on the count or on a store fault |
| `Quota.QuotaBoundary` | lib/actions/companion.action.ts:136-142 | a non-pro caller at exactly the limit is allowed; one above it is refused |
| `Quota.RefusalIsMonotone` | lib/actions/companion.action.ts:138-139 | once a count is refused, every larger count is refused too |
| `Listing.Select` | lib/actions/companion.action.ts:29-39 | the selected rows are at most the table's rows, and a companion is selected exactly when it is in the table and passes every filter |
| `Listing.Window` | lib/actions/companion.action.ts:41 | the range `[from, to]` yields at most `to - from + 1` rows, none when `to < from`, and exactly `rows[from..to+1]` (or the tail from `from`) inside the table |
| `Listing.GetAllCompanions` | lib/actions/companion.action.ts:21-48 | a store error is thrown with its message; otherwise every returned companion is in the table and satisfies the four-way filter, and at most `limit` (default 10) are returned |
| `Listing.BuildQueryMeaning` | lib/actions/companion.action.ts:31-39 | the filters the query builder adds admit a companion exactly when the four-way rule does: subject match and (topic or name match), subject only, topic-or-name only, or everything |
| `Listing.SelectIsMatchingRows` | lib/actions/companion.action.ts:29-39 | running the built filters over the table gives the rows the four-way rule admits, in table order |
| `Listing.GetAllCompanionsIsPageOfMatches` | lib/actions/companion.action.ts:29-47 | the listing is the requested row range of the matching rows |
| `Listing.NoFilterKeepsAll` | lib/actions/companion.action.ts:31-39 | with neither `subject` nor `topic` given, every row qualifies |
| `Listing.PageRangeSize` | lib/actions/companion.action.ts:41 | a page covers exactly `limit` indices and, for `page >= 1` and `limit >= 1`, starts at a valid index |
| `Listing.ConsecutivePagesAdjoin` | lib/actions/companion.action.ts:41 | page `p + 1` starts at the index right after page `p` ends |
| `Listing.FirstPagesArePrefix` | lib/actions/companion.action.ts:41 | reading pages 1 to n one after the other yields the first `n * limit` rows: no row is skipped or repeated |
| `Listing.DefaultAndSecondPage` | lib/actions/companion.action.ts:21-41 | the default request (limit 10, page 1) asks for rows 0 to 9, and limit 10, page 2 asks for rows 10 to 19 |
| `Listing.SearchBySubject` | lib/actions/companion.action.ts:35-36 | with a Math/Algebra and a Science/Algebra companion, `subject = "math"` returns only the first |
| `Listing.SearchByTopic` | lib/actions/companion.action.ts:37-38 | with the same two companions, `topic = "algebra"` returns both |
| `Bookmarks.AtMostOnePerPairDistinct` | lib/actions/companion.action.ts:159-174 | under the at-most-one-row-per-pair invariant no two rows of the table are equal |
| `Bookmarks.BookmarkTable.CountMatching` | lib/actions/companion.action.ts:159-164 | the lookup of a (companion, user) pair counts exactly the rows equal to it, and finds one exactly when the pair is present |
| `Bookmarks.BookmarkTable.AddBookmark` | lib/actions/companion.action.ts:146-199 | no user: "User not authenticated", table unchanged; pair present: "Companion is already bookmarked", table unchanged; several rows: the check fails, table unchanged; otherwise exactly one row is appended and returned; the invariant is preserved |
| `Bookmarks.BookmarkTable.RemoveBookmark` | lib/actions/companion.action.ts:201-233 | no user: "User not authenticated", table unchanged; otherwise every row of the pair is deleted and returned, all other rows stay in order, and it succeeds when nothing matches; the invariant is preserved |
| `Bookmarks.BookmarkTable.IsBookmarked` | lib/actions/companion.action.ts:236-252 | `true` exactly when a row for the pair exists (when it has at most one row), and a store error when it has more |
| `Bookmarks.WithoutCount` | lib/actions/companion.action.ts:213-217 | after the delete, the pair has no row left and every other row occurs as often as before |
| `Bookmarks.WithoutAbsent` | lib/actions/companion.action.ts:213-217 | deleting a pair with no row leaves the table as it was |
| `Bookmarks.WithoutAppend` | lib/actions/companion.action.ts:213-217 | the delete keeps the remaining rows in their order |
| `Bookmarks.AddTwice` | lib/actions/companion.action.ts:159-183 | adding a pair twice inserts on the first call, is refused with "already bookmarked" on the second, leaves one new row, and the pair then reads as bookmarked |
| `Bookmarks.RemoveThenCheck` | lib/actions/companion.action.ts:213-251 | removing succeeds, deletes at most one row of a valid table, changes nothing when there was no row, and the pair then reads as not bookmarked |
| `Bookmarks.UserRows` | lib/actions/companion.action.ts:258-261 | the user's rows are exactly the table's rows with that `user_id` |
| `Bookmarks.JoinCompanions` | lib/actions/companion.action.ts:260 | the join gives one entry per bookmark row: its companion, or null when the companion is gone |
| `Bookmarks.BookmarkedList` | lib/actions/companion.action.ts:268 | the listing has at most as many companions as the user has bookmarks |
| `Bookmarks.BookmarkedListMembers` | lib/actions/companion.action.ts:258-268 | a companion is listed exactly when one of the user's bookmark rows points at it |
| `Bookmarks.GetBookmarkedCompanions` | lib/actions/companion.action.ts:255-269 | a store error is thrown with its message; otherwise at most one companion per user bookmark, and the empty list when the user has none |
| `Bookmarks.BookmarkedListInRowOrder` | lib/actions/companion.action.ts:268 | the listing follows the order of the bookmark rows |
| `Bookmarks.OrphanIsDropped` | lib/actions/companion.action.ts:267-268 | a bookmark whose companion is gone adds nothing to the listing |
| `Common.Lookup` | lib/actions/companion.action.ts:81 | the embedded companion is present exactly when some row of the companions table has that id, and is then such a row, with that id |
| `Common.Somes` | lib/actions/companion.action.ts:268 | `filter(Boolean)` keeps exactly the non-null entries and never lengthens the list |
| `Common.SomesAppend` | lib/actions/companion.action.ts:268 | dropping nulls keeps the order of the entries |
| `Sessions.Insert` | lib/actions/companion.action.ts:82 | inserting an entry into a newest-first list keeps it newest-first and adds exactly that entry |
| `Sessions.NewestFirst` | lib/actions/companion.action.ts:82 | ordering by `created_at` descending gives a newest-first permutation of the history |
| `Sessions.Take` | lib/actions/companion.action.ts:83 | `.limit(n)` keeps the first `min(n, length)` rows, in order |
| `Sessions.Latest` | lib/actions/companion.action.ts:82-83 | the `limit` newest entries, at most `limit` of them, newest first |
| `Sessions.LatestKeepsNewest` | lib/actions/companion.action.ts:82-83 | the kept entries come from the history, and no entry left out is newer than one kept |
| `Sessions.Companions` | lib/actions/companion.action.ts:87 | the projection gives one entry per history row: the row's companion, or null |
| `Sessions.GetRecentSessions` | lib/actions/companion.action.ts:77-88 | a store error is thrown with its message; otherwise one companion (or null) per kept row, `min(limit, rows)` of them with `limit` defaulting to 10, in newest-first order |
| `Sessions.UserEntries` | lib/actions/companion.action.ts:95 | the user's history rows are exactly the rows whose `user_id` is that user |
| `Sessions.GetUserSessions` | lib/actions/companion.action.ts:90-102 | a store error is thrown with its message; otherwise one companion (or null) per kept row of that user, `min(limit, the user's rows)` of them with `limit` defaulting to 10 |
| `Sessions.DefaultFeedIsTenNewest` | lib/actions/companion.action.ts:77-97 | without a `limit`, the global feed shows `min(10, rows)` sessions and a user's feed at most 10 |
| `Sessions.UserSessionsAreTheUsers` | lib/actions/companion.action.ts:95-97 | every session in a user's feed is a history row of that user |
| `Sessions.OtherUsersIgnored` | lib/actions/companion.action.ts:95 | another user's session does not change a user's rows |
| `Sessions.SoleUserSeesRecentSessions` | lib/actions/companion.action.ts:77-102 | when every history row belongs to the user, the user's feed equals the global feed |

## Left out

- `createCompanion`, `getCompanion` and `getUserCompanions`: single store calls with no logic of their own. `getCompanion` yields nothing on a store error and otherwise the first row, so at most an optional companion.
- `addtoSessionHistory`: a plain insert with no check. The history is an argument of the session feeds instead.
- `revalidatePath`: a cache-invalidation call with no result the service uses.
- The `console.log` / `console.error` calls: logging only.
- Concurrency: each call is atomic here. The check-then-insert race between two `addBookmark` calls, and between the quota check and a later `createCompanion`, is not modelled. The at-most-one-row invariant is proved for sequential use only.
- Escaping in filter patterns: `%`, `_` or `,` inside `subject` or `topic` would change the store's filter. The model treats the search text as a plain substring.
- Case folding covers the ASCII letters only. The store's `ilike` folds according to the database locale.
- Transient store failures on the bookmark table's queries, inserts and deletes: the in-memory table does not fail. The only bookmark failure modelled is `maybeSingle()` meeting more than one row. The pure operations take a `fault` argument for the store's error.
- The store-assigned `id` of bookmark and session rows. Rows are identified by their (companion, user) content.
- Quota.NewCompanionPermissions: the count of the caller's companions is an argument. Counting the rows of the `companions` table for the caller, including an unauthenticated caller's count, is not modelled.
- Listing.Window: a range with a negative start (from `page < 1` or `limit < 1`) is clamped to the table. How the remote store answers such a range is not modelled, nor are non-integer `page` or `limit` values.
- Listing.GetAllCompanions: rows come back in table order, since the query sets no order.
- Sessions.NewestFirst: sessions with equal `created_at` keep their history order. The store promises no order among them.
- Sessions.Take: a negative `limit` gives no rows. The store's handling of a negative limit is not modelled.
