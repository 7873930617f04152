# Bookkeeping service: a Dafny model

This project models the server side of a small multi-user bookkeeping service. The service
runs as serverless functions in front of one relational store. The store holds three tables:
`users`, `categories` (shared categories with owner 0 plus each user's own) and `records`
(signed amounts, each with a category and a date).

The model covers these parts:

- **Gateway** (`gateway.dfy`, module `Gateway`). Every request passes it first. It handles the
  CORS preflight and the allow-list of public paths. It then checks the bearer header, verifies
  the token and enforces the admin namespace. It stores the verified claims in the request
  context. `Decide` is the decision as a pure function. `OnRequest` is the imperative pass over
  a `Context` object.
- **Record store** (`records.dfy`, module `Records`).
  - The listing: the caller's rows, filtered by date range, category and kind, newest first,
    with a LIMIT/OFFSET page and the total of all matching rows.
  - Creation, update and deletion of the caller's own records, as methods on the `Database`
    object.
- **Statistics** (`stats.dfy`, module `Stats`). For one month it gives the income and expense
  totals, the balance, a per-category breakdown of each kind and a per-day trend.
- **Category store** (`categories.dfy`, module `Categories`). It lists the shared categories and
  the caller's own, income first and then by id. It creates a caller-owned category whose name
  is non-empty and unique for that owner.
- **Registration** (`register.dfy`, module `Registration`). The checks run in a fixed order:
  presence, username length, password length, duplicate name. A successful registration inserts
  a non-admin user holding the password's hash.
- **Sign-in** (`login.dfy`, module `Login`). It looks the user up and compares the password
  against the stored hash. It returns a token signed for seven days, whose expiry is the `exp`
  claim of section 4.1.4 of RFC 7519. An unknown user and a wrong password get the same reply.
- **Admin user list** (`admin_users.dfy`, module `AdminUsers`). It has one row per user, without
  the password, giving the number of records and the income and expense sums. The newest account
  comes first.

Shared modules:

- `Schema` holds the rows, the reply envelope and the `Database` class, whose `Valid()` states
  that ids and usernames are unique.
- `Sorting` is a stable insertion sort. It is proved sorted and a permutation. It models each
  `ORDER BY`; rows that tie keep table order, which is one order the store may return.
- `Aggregates` holds sums, filters and per-key group sums, proved to add up to the total.

Several things belong to libraries, the clock or the request and are parameters of the model:

- Password hashing and comparison: `hash`, `matches`.
- Token signing and verification: `sign`, `verify`.
- The current time, today's date and the current month: `now`, `today`, `current`.
- The caller's id, which the gateway has verified: `userId`.

Store-assigned row ids come from the `next...Id` counters of `Database`.

**Signs of amounts.** The client stores expenses as negative amounts
(`public/js/main.js:72`). The store sums amounts with their stored sign, so the month's expense
total is normally negative. The handler then computes `balance` as income minus that negative
total, so an expense raises the balance. The model keeps the handler's arithmetic, because this
is what clients receive.

- `Stats.BalanceAddsExpenses` shows a single expense of 50 giving an expense total of -50 and a
  balance of +50.
- `Stats.NetBalanceIsSignedSum` states what the net figure, `Stats.NetBalance`, would be.

So `total_expense` is the raw signed sum of the month's expense amounts, negative whenever
expenses were entered as negative amounts, and the client shows `balance` as the handler
computes it.

## Model

| member | source | states |
|---|---|---|
| Gateway.Decide | functions/_middleware.js:21-67 | Checks run in priority order. OPTIONS always gives the preflight, whatever the path or token. An allow-listed, `/js/` or `/css/` path passes through. Without a bearer header the entry pages redirect and every other path gets 401. A token that does not verify gets 401. Verified non-admin claims on `/api/admin/` get 403. Otherwise the request is dispatched with exactly the verified claims. Each outcome is stated as an if-and-only-if. |
| Gateway.NoTokenCheckBeforeHeader | functions/_middleware.js:21-51 | A preflight, a bypassed path or a missing bearer header is decided the same whatever the verifier answers. |
| Gateway.JoinFieldsSplit | functions/_middleware.js:54 | Splitting the header on spaces loses nothing: joining the fields gives the header back. |
| Gateway.SplitAfterField | functions/_middleware.js:54 | A field free of the separator, followed by the separator, is the first field of the split. |
| Gateway.BearerTokenIsSecondField | functions/_middleware.js:54 | The token is the text after "Bearer " up to the next space. For "Bearer " + t with no space in t, it is exactly t. |
| Gateway.ErrorResponse | functions/_middleware.js:47-50 | An error reply carries its code as the status and in the JSON body, with `Access-Control-Allow-Origin: *`. |
| Gateway.PassThroughAsWritten | functions/_middleware.js:34-37 | The bypass response as written: downstream body and headers plus the CORS header, but status 200 whatever the downstream status. |
| Gateway.PassThroughAsWrittenDropsStatus | functions/_middleware.js:37 | An allow-listed handler's 400 leaves the gateway with a different status. |
| Gateway.WithAllowOrigin | functions/_middleware.js:34-37 | The bypass response as intended: same status and body, the CORS header set to `*`, every other header kept. |
| Gateway.Respond | functions/_middleware.js:21-73 | The response for each decision: preflight headers, the pass-through with CORS, the 302 to `/login.html`, the two 401 messages, the 403 message, or the handler's own response on dispatch. |
| Gateway.Context.constructor | functions/_middleware.js:16 | The request context starts with no user. |
| Gateway.OnRequest | functions/_middleware.js:15-74 | Gives the response `Respond(Decide(...))`. Calls the next handler exactly on pass-through and dispatch. Writes `data.user` as the verified claims once the token verifies, including the 403 case, and leaves it untouched otherwise. |
| Schema.CategoryOf | functions/api/records/index.js:19 | The left join's partner row: a category with the record's id, or none when no category has it. |
| Schema.Join | functions/api/records/index.js:18-19 | The left join keeps one joined row per record, in table order. |
| Schema.OrEmpty | functions/api/records/index.js:100 | `description \|\| ''`: the text when present, otherwise the empty text. |
| Records.MatchingRows | functions/api/records/index.js:20-37 | Exactly the joined rows of the caller that pass every active filter. |
| Records.AddedFilterShrinks | functions/api/records/index.js:25-37 | A query that keeps the filters of another and adds more keeps only rows the other keeps, and no more of them. |
| Records.Ordered | functions/api/records/index.js:40 | The matching rows, as a permutation, sorted by date and then creation time, newest first. |
| Records.Window | functions/api/records/index.js:40-41 | LIMIT/OFFSET: at most `limit` rows, each the row at `offset + i`. The exact length when the offset is in range. |
| Records.WindowKeepsOrder | functions/api/records/index.js:40-41 | A window of an ordered sequence is ordered. |
| Records.Page | functions/api/records/index.js:40-44 | The page holds only matching rows, newest first, and is the window of the ordered matches at `(page-1)*pageSize`. |
| Records.List | functions/api/records/index.js:8-9 | Echoes page and pageSize, defaulting to 1 and 20. `total` counts every match regardless of the page. The page holds no more rows than `total` and than `pageSize`. |
| Records.ProjectAll | functions/api/records/index.js:17 | Each listed row is the selected columns of the corresponding joined row. |
| Records.ListedRowsMatch | functions/api/records/index.js:16-37 | Every listed row comes from a row of the caller that passes the filters. |
| Records.ListedNewestFirst | functions/api/records/index.js:40 | Listed dates never increase down the page. |
| Records.ListedCount | functions/api/records/index.js:40-41 | A page holds `min(pageSize, total - offset)` rows when the offset is in range. |
| Records.ListedWindow | functions/api/records/index.js:40-41 | Listed row `i` is ordered match `(page-1)*pageSize + i`. |
| Records.PageOfRow | functions/api/records/index.js:41 | Position `k` lies on page `k / n + 1` at entry `k % n`, and that page's offset is `k - k % n`. |
| Records.PageEntry | functions/api/records/index.js:40-41 | Entry `r` of page `p` is ordered match `(p-1)*pageSize + r` whenever that match exists. |
| Records.EveryMatchIsOnItsPage | functions/api/records/index.js:40-41 | Every matching row appears on page `k / pageSize + 1` at entry `k % pageSize`, so paging through loses no row. |
| Records.OtherPage | functions/api/records/index.js:47-62 | Changing only the page changes neither the matches, the ordering, the total nor the page size. |
| Records.NewRecord | functions/api/records/index.js:98-100 | The inserted row belongs to the caller. Description defaults to "" and date to today. |
| Records.Create | functions/api/records/index.js:91-102 | A falsy amount (including 0) or category gives 400 with the table unchanged. Otherwise it appends exactly the new row under a fresh id, returns that id and keeps the store valid. |
| Records.CreateIsCounted | functions/api/records/index.js:98-100 | A created record raises its owner's total by one exactly when it matches the filters, and always for an unfiltered listing. |
| Records.Updated | functions/api/records/index.js:139-141 | Only rows with that id and owner take the new amount, category, description and date; they keep id, owner and creation time. Every other row is unchanged. |
| Records.Update | functions/api/records/index.js:123-145 | A missing id, amount or category gives 400. A record that is absent or owned by someone else gives 403. In both cases the table is unchanged. Otherwise the table becomes `Updated(...)`. |
| Records.Deleted | functions/api/records/index.js:178 | Exactly the rows other than the one with that id and owner remain. |
| Records.DeletedNoMatch | functions/api/records/index.js:178 | Deleting an id the caller does not own changes nothing. |
| Records.DeleteRemovesExactlyOne | functions/api/records/index.js:178 | When only row i has the id, deletion removes exactly row i and keeps the rest in order. |
| Records.DeleteOwned | functions/api/records/index.js:170-178 | Deleting an owned row removes exactly that row and keeps ids valid. |
| Records.DeletedKeepsValid | functions/api/records/index.js:178 | Deletion keeps record ids unique and in range. |
| Records.Delete | functions/api/records/index.js:162-182 | A missing id gives 400. A record not owned by the caller gives 403. In both cases the table is unchanged. Otherwise the table becomes `Deleted(...)`. |
| Records.DeleteKeepsOthersRows | functions/api/records/index.js:178 | A deletion by one user leaves every other user's matching rows unchanged. |
| Records.UpdateKeepsOthersRows | functions/api/records/index.js:140 | An update by one user leaves every other user's matching rows unchanged. |
| Records.OthersListingUnchanged | functions/api/records/index.js:140-178 | Another user's whole listing, page and total included, is the same after an update or a deletion. |
| Stats.MonthRows | functions/api/records/stats.js:15 | Exactly the joined rows of the caller dated in the requested month. |
| Stats.CategoryTotals | functions/api/records/stats.js:19-26 | One row per group key, holding the category name and the sum of that group's amounts. |
| Stats.DailyTotals | functions/api/records/stats.js:39-49 | One row per date, holding that date's income-category and expense-category sums. |
| Stats.MonthlyStatsOf | functions/api/records/stats.js:5-57 | The month defaults to the current one, and `balance` equals `total_income - total_expense` as returned. |
| Stats.TotalsSplitByKind | functions/api/records/stats.js:9-16 | Income is the sum over income-category rows and expense the sum over expense-category rows; uncategorised rows count toward neither. |
| Stats.EmptyMonth | functions/api/records/stats.js:55-57 | With no rows in the month every figure is 0 and every list empty. |
| Stats.CategoryTotalsSum | functions/api/records/stats.js:19-26 | The breakdown rows sum to the group sums over their keys. |
| Stats.BreakdownAddsUp | functions/api/records/stats.js:19-36 | A breakdown sums to the amounts of the rows of its kind. |
| Stats.BreakdownShape | functions/api/records/stats.js:19-36 | A breakdown has one row per category used, sorted by total descending, and every used category has a row. |
| Stats.BreakdownsAddUp | functions/api/records/stats.js:19-36 | The expense breakdown sums to `total_expense` and the income breakdown to `total_income`. |
| Stats.DailyTotalsSum | functions/api/records/stats.js:39-49 | The trend rows' incomes and expenses sum to the group sums over their dates. |
| Stats.TrendAddsUp | functions/api/records/stats.js:39-49 | Daily incomes sum to `total_income` and daily expenses to `total_expense`. |
| Stats.TrendOrdered | functions/api/records/stats.js:47-48 | One trend row per distinct date, in ascending date order. |
| Stats.TrendCoversDates | functions/api/records/stats.js:47 | Every date of the month's rows has a trend row. |
| Stats.TrendDatesFromRows | functions/api/records/stats.js:47 | Every trend date is the date of some row. |
| Stats.TrendShape | functions/api/records/stats.js:39-49 | The trend has one row per distinct date, ascending, covering every row's date, and each date lies in the requested month. |
| Stats.NetBalanceIsSignedSum | functions/api/records/stats.js:55-57 | Income plus the (signed) expense total is the signed sum of the month's categorised amounts. |
| Stats.BalanceAddsExpenses | functions/api/records/stats.js:57 | One stored expense of -50 gives an expense total of -50 and a balance of +50, while the net is -50. |
| Categories.Scoped | functions/api/categories.js:9 | Exactly the categories owned by 0 or by the caller. |
| Categories.List | functions/api/categories.js:9 | The listing has one row per visible category. |
| Categories.VisibleAreListed | functions/api/categories.js:9 | Every shared category and every category of the caller is listed. |
| Categories.ListedAreVisible | functions/api/categories.js:9 | Every listed row is a shared category or one of the caller's. |
| Categories.ListedInOrder | functions/api/categories.js:9 | Income categories come first, and ids ascend within each kind. |
| Categories.NewCategory | functions/api/categories.js:38-39 | The stored category is owned by the caller, and `is_income` is 1 exactly when the request's flag is truthy, otherwise 0. |
| Categories.Create | functions/api/categories.js:30-50 | An empty name gives 400. A name the caller already uses gives 400 "该分类名称已存在". In both cases the table is unchanged. Otherwise it appends the new category under a fresh id, returns that id and keeps (owner, name) unique. |
| Categories.CreatedIsListedAndTaken | functions/api/categories.js:38-50 | A created category appears in its owner's listing, and creating the same name again is refused. |
| Registration.Rejection | functions/api/auth/register.js:9-35 | The first failing check decides the message: presence, then username length 3-20, then password length at least 6, then the duplicate name. None exactly when all pass. |
| Registration.NewUser | functions/api/auth/register.js:38-41 | The inserted user holds the given hash as password, `is_admin` 0 and the insert time. |
| Registration.Register | functions/api/auth/register.js:9-45 | Any rejection gives 400 with its message and no change. Otherwise it appends exactly one user with `hash(password)` under a fresh id and keeps ids and usernames unique. |
| Registration.AddedUserKeepsValid | functions/api/auth/register.js:29-41 | Inserting under a fresh id and a free name keeps ids and usernames unique. |
| Registration.RegisteredNameIsTaken | functions/api/auth/register.js:29-35 | After a registration the same name is refused as taken. |
| Login.FindByUsername | functions/api/auth/login.js:18 | The lookup finds a user with that name, and finds none exactly when no user has it. |
| Login.ClaimsFor | functions/api/auth/login.js:36-40 | The claims are the user's id, name and admin flag, with an expiry seven days (604800 s) after issue. |
| Login.Authenticate | functions/api/auth/login.js:10-51 | Missing fields give 400 "用户名和密码不能为空". Success holds exactly when the user exists and the password matches. Every other failure is the same 400 "用户名或密码错误". On success the token signs the user's claims, and the returned user is the same id, name and flag. |
| Login.FindsTheHolder | functions/api/auth/login.js:18 | With unique usernames the lookup finds the one user holding the name. |
| Login.RegisteredUserCanSignIn | functions/api/auth/login.js:18-40 | A freshly registered user signs in with their password and gets a non-admin session naming the new id. |
| Login.WrongPasswordLooksLikeUnknownUser | functions/api/auth/login.js:19-33 | A rejected password gives the same reply as an unknown user. |
| Login.SessionPassesGateway | functions/api/auth/login.js:36-40 | A token issued at sign-in, sent as a bearer header, is dispatched by the gateway with the signed claims, except that a non-admin is refused under `/api/admin/`. |
| AdminUsers.List | functions/api/admin/users.js:6-17 | One row per user. |
| AdminUsers.ListShape | functions/api/admin/users.js:12-16 | The rows are exactly the users' summaries as a permutation, every user is listed, and the newest account comes first. |
| AdminUsers.NoRecordsNoFigures | functions/api/admin/users.js:9-13 | A user with no records is listed with count 0 and both totals 0. |
| AdminUsers.GroupedSums | functions/api/admin/users.js:9-15 | Summed over the users, each figure is the group sum over their ids. |
| AdminUsers.FiguresAddUp | functions/api/admin/users.js:9-15 | When every record belongs to a user, the counts add up to the number of records, and the totals to the income and expense sums over all records. |

## Left out

- Records.Create, Categories.Create, Registration.Register: the id they assign (which both Create methods return) comes from a counter that never goes back. It is one fresh id the store could assign, not necessarily the one it does: without AUTOINCREMENT the store takes the highest id plus one, and so reuses an id after the row holding the highest id is deleted.
- Store failures, malformed JSON bodies and the other 500 replies in each handler's `catch` are not modelled.
- Request values are modelled as present or absent. A string that is empty and a number that is 0 count as falsy. Values of other JSON types (booleans, arrays, numbers sent as usernames) are not modelled, nor are numeric strings such as a `category_id` sent as the text "0", which JavaScript counts as truthy while the model's `Truthy(Some(0))` is false (ids start at 1, so no stored id is affected).
- Registration.Rejection: lengths are counted in characters, whereas the source counts UTF-16 code units. A name with characters outside the Basic Multilingual Plane is therefore measured shorter than the source measures it.
- Records.Update: `record_date` is a required date. A request without one is not modelled: the absent field reaches the store as `undefined`, which the store's binding refuses, and the handler answers 500; an explicit null would write NULL.
- Records.List: `page` and `pageSize` are integers or absent. The non-numeric text that `parseInt` turns into NaN is not modelled. The dates of the filter are calendar dates, not arbitrary text compared as text.
- Stats.MonthlyStatsOf: the month is a `YYYY-MM` value or absent. A malformed month text, which matches no row, is not modelled.
- SQL `SUM` over no rows gives NULL, which the handler replaces with 0. The model yields 0 directly.
- Amounts are integers (for example cents); floating-point amounts and their rounding are not modelled.
- Password hashing, password comparison, token signing and token verification are parameters. The cryptography and the expiry check inside verification are not modelled.
- The clock is a parameter. Creation times are integers, and ties in an `ORDER BY` keep table order.
- Category uniqueness is checked before the insert rather than reported by the store's UNIQUE constraint after it. Concurrent requests are not modelled.
- The join picks the first category with a matching id; category ids are unique in a valid store.
- Response headers other than the gateway's, and the JSON encoding of replies, are not modelled. The redirect's `Location` is the path `/login.html`, not the absolute URL.
- `functions/api/auth/me.js` and the browser scripts under `public/` are not part of this model.

## Findings

| source | as written | input that shows it | evidently intended | confidence | as-written member | corrected member |
|---|---|---|---|---|---|---|
| functions/_middleware.js:37 | `new Response(response.body, { ...response, headers })`. Spreading a Response copies none of its status, because status is an accessor, so the new response has status 200. | A failed sign-in on the allow-listed `/api/auth/login`: the handler answers 400 "用户名或密码错误", and the client receives status 200 with that body. | The handler's status passes through with only the CORS header added. | not executed | Gateway.PassThroughAsWritten (Gateway.PassThroughAsWrittenDropsStatus) | Gateway.WithAllowOrigin (used by Gateway.Respond and Gateway.OnRequest) |
