# eat-what: recommendation and statistics core in Dafny

This project models the server routes and client hooks of eat-what. eat-what is a "what to eat today" web app: it picks a random dish or drink from a food catalog and records what people do with the suggestion.

The model covers:

- **Catalog routes.** Listing, filtering, paging and creating catalog rows (`/api/foods`). The catalog counts (`/api/stats`). The anonymous batch upload (`/api/foods/batch`).
- **Picking and ranking.** The random picker (`/api/recommend`). The popularity ranking (`/api/foods/ranking`).
- **Statistics.** The recommendation-session recorder with its per-food counters (`/api/stats/recommendation`). The usage counters, global and per day (`/api/stats/usage`).
- **Client side.** The browser's catalog cache (`useFoodsCache`), its session tracker (`useRecommendationStats`) and the device fingerprint (`lib/device-fingerprint.ts`).

The store is one object, `Store.Db`. It holds the food catalog, users, ratings, session records, per-food counters, the global usage singleton, the day records and the id generator. Each route handler is a method over it whose `modifies` clause names only the fields it writes. Each handler is specified by functions on the old state, and lemmas about those functions state what the route promises. Examples:

- no counter update is lost;
- a batch never inserts a duplicate (name, kind) pair;
- a page holds exactly the matching rows from `(page-1)*limit` on;
- the rolling hash is the polynomial hash wrapped to 32 bits.

Inputs the code reads from outside become parameters. These are the clock (`now`, `today`), `Math.random()` (reals in [0, 1)), request bodies and query strings, the client's device id, the browser traits, and each fetch's outcome. The generic pieces are shared modules:

- `Common`: option, filter and count;
- `Text`: substring, case folding, trimming, splitting, decimal numerals;
- `Sorting`: a stable insertion sort, proved sorted, a permutation, and equal to any other stable sort;
- `Paging`: `Math.ceil`, `Array.prototype.slice`, and the store's skip/take.

Where the code does something other than the app's own description, the model follows the code:

- **Global users.** `totalUsers` grows on every click from a device that has no session record yet. A device's first clicks before its first session are all counted as new users. An absent device id is new only while the session table is empty.
- **Daily users.** A day's `activeUsers` list stores an absent device id as `null`, and every such click counts as a new daily user.
- **Repeated accept.** A second 'accept' on an already completed session is applied again and counts the acceptance again.
- **Blank batch name.** In a batch, a name made of spaces passes the presence check and is inserted under its trimmed (empty) name.
- **Double drink pick.** In `/api/recommend`, `type=drink` with `includeDrink=true` picks a drink twice, and the second pick is the one returned.

## Model

| member | source | states |
|---|---|---|
| RecommendationStats.Bump | app/api/stats/recommendation/route.ts:191-210 | one event raises exactly its own counter by one and refreshes its own time stamp (both rejections share one); every other counter and stamp is unchanged |
| RecommendationStats.FoodStatsAfter | app/api/stats/recommendation/route.ts:175-218 | the record of a catalog food is created with zeros if missing and bumped; every other food's record is untouched; a food id outside the catalog changes nothing (the failed create is swallowed) |
| RecommendationStats.UpdateFoodStats | app/api/stats/recommendation/route.ts:175-218 | the counter table becomes `FoodStatsAfter` of the old one; the store invariant is kept |
| RecommendationStats.ApplyStatEvents | app/api/stats/recommendation/route.ts:90-136 | applying an action's counter events one at a time leaves the counter table equal to `ApplyEvents` of the old table, so the lemmas on `ApplyEvents` below hold of the route; the store invariant is kept |
| RecommendationStats.ApplyEventsCounts | app/api/stats/recommendation/route.ts:175-218 | no update is lost: after any run of events, a catalog food's counter has risen by exactly the number of events naming that food and counter |
| RecommendationStats.ApplyEventsMonotone | app/api/stats/recommendation/route.ts:191-210 | counters never decrease |
| RecommendationStats.ApplyEventsUnknownFood | app/api/stats/recommendation/route.ts:182-218 | events for foods outside the catalog leave the table unchanged |
| RecommendationStats.ApplyEventsKeys | app/api/stats/recommendation/route.ts:178-186 | counter records exist only for catalog foods |
| RecommendationStats.ApplyEventsSnoc | app/api/stats/recommendation/route.ts:175-218 | one more event applies one more update at the end |
| RecommendationStats.CreateSession | app/api/stats/recommendation/route.ts:17-31 | POST appends one record with the next id and the given ids; the reply carries both ids |
| RecommendationStats.NewSessionIsEmpty | app/api/stats/recommendation/route.ts:17-26 | a new record has no attempts and no history, and is neither accepted nor completed |
| Common.FindFirst | app/api/stats/recommendation/route.ts:59-61 | the store's first-match lookup, shared by the session lookup by id, the day lookup by date (app/api/stats/usage/route.ts:196-204) and the user lookup by nickname (app/api/foods/batch/route.ts:21-25): the position of the first row that matches, or none when no row does |
| RecommendationStats.Put | app/api/stats/recommendation/route.ts:46-171 | a missing session id is a 400 and a session that is not found is a 404; neither changes anything. Otherwise exactly the found record is replaced by the action's result, and the counters receive the action's events |
| RecommendationStats.AttemptAppendsOne | app/api/stats/recommendation/route.ts:73-90 | 'attempt' adds one to the attempts and appends exactly one history entry; completion and acceptance are left alone |
| RecommendationStats.AttemptRecommends | app/api/stats/recommendation/route.ts:91-96 | 'attempt' records one recommendation for the food and one for the drink when given, and nothing else |
| RecommendationStats.OccurrencesConcat | app/api/stats/recommendation/route.ts:91-96 | event counts add up when event runs are concatenated |
| RecommendationStats.OccurrencesIfGiven | app/api/stats/recommendation/route.ts:91-96 | an optional id contributes one event exactly when it is given |
| RecommendationStats.OccurrencesOfPair | app/api/stats/recommendation/route.ts:91-96 | the food and drink updates of one action count once per given id |
| RecommendationStats.AcceptKeepsAttempts | app/api/stats/recommendation/route.ts:98-116 | 'accept' marks the session accepted and completed now, records the given finals, keeps attempts and history, and records acceptances only |
| RecommendationStats.RejectByType | app/api/stats/recommendation/route.ts:118-136 | 'reject' counts a permanent rejection iff the type is 'forever' and a today-rejection otherwise, once for the food id and once for the drink id when either names the food (twice when both do); it records no recommendation or acceptance and closes the session |
| RecommendationStats.AbandonTouchesNoFood | app/api/stats/recommendation/route.ts:138-157 | 'abandon' closes the session with rejection type 'abandon' and one abandon entry, and touches no food counter |
| RecommendationStats.UnknownActionChangesNothing | app/api/stats/recommendation/route.ts:73-163 | an unrecognised action changes neither the record nor the counters |
| RecommendationStats.RepeatedAcceptCountsTwice | app/api/stats/recommendation/route.ts:98-116 | nothing guards a completed session: the same accept applied twice raises the acceptance counter by two |
| RecommendationStats.GetStats | app/api/stats/recommendation/route.ts:222-279 | the summary is returned iff the type is absent, empty or 'summary'; its session total is the number of records |
| RecommendationStats.SummaryBounds | app/api/stats/recommendation/route.ts:229-239 | the completed count never exceeds the total; when every closed session has a completion time, the accepted and abandoned counts never exceed the completed count |
| UsageStats.ParseUsageAction | app/api/stats/usage/route.ts:15-84 | the POST accepts exactly the six action strings, each mapped to its own event |
| UsageStats.ParseActionName | app/api/stats/usage/route.ts:15-84 | every action string a client sends dispatches to its own event |
| UsageStats.GlobalAfter | app/api/stats/usage/route.ts:164-191 | exactly the event's global counter rises by one; `totalUsers` rises only for a click by a new user; `lastUpdated` is now |
| UsageStats.IsNewUser | app/api/stats/usage/route.ts:156-162 | a device is new iff no session record carries its id; an absent id is new iff there are no session records |
| UsageStats.GetOrCreateGlobalStats | app/api/stats/usage/route.ts:243-253 | the existing singleton is returned unchanged, or a zeroed one is created and returned |
| UsageStats.GetOrCreateTwice | app/api/stats/usage/route.ts:243-253 | two get-or-create calls in a row return the same record, and the singleton is then what a single call leaves: the existing one, or a new zeroed one |
| UsageStats.UpdateGlobalStats | app/api/stats/usage/route.ts:148-192 | the singleton becomes `GlobalAfter` of the old one, with novelty judged against the session table |
| UsageStats.OnlyClicksCountUsers | app/api/stats/usage/route.ts:164-170 | no event other than a click changes `totalUsers` |
| UsageStats.ClicksBeforeFirstSession | app/api/stats/usage/route.ts:156-170 | two clicks from a device with no session record both count as new users |
| UsageStats.DailyAfter | app/api/stats/usage/route.ts:206-237 | the day keeps its date; exactly the event's day counter rises by one; a click from an unlisted device lists it and counts a daily user, and any other event leaves both alone |
| UsageStats.IsNewDailyUser | app/api/stats/usage/route.ts:206-207 | a click counts as a new daily user iff the device id is not in the day's active list; an absent id always counts as new |
| UsageStats.DailyAfterValid | app/api/stats/usage/route.ts:212-218 | the device list stays free of repeated ids, and `dailyUsers` stays equal to its length |
| UsageStats.ClickListsDevice | app/api/stats/usage/route.ts:212-218 | after a click the device is listed for the day |
| UsageStats.RepeatClickSameDay | app/api/stats/usage/route.ts:212-218 | a second click the same day does not count the device again |
| UsageStats.DailyTableAfterSpec | app/api/stats/usage/route.ts:195-240 | after the update, the date's record is `DailyAfter` of the old one (or of a zero record when it was missing); every other date's record is unchanged; dates stay unique and records valid |
| UsageStats.FindDayUnique | app/api/stats/usage/route.ts:196-199 | with unique dates, the lookup finds the record's own position |
| UsageStats.FindDayOutside | app/api/stats/usage/route.ts:196-204 | changing one date's record leaves the lookup of every other date as it was |
| UsageStats.FindDayPrefix | app/api/stats/usage/route.ts:196-199 | the lookup finds the first position holding the date |
| UsageStats.UpdateDailyStats | app/api/stats/usage/route.ts:195-240 | the day table becomes `DailyTableAfter` of the old one; the store invariant is kept |
| UsageStats.Post | app/api/stats/usage/route.ts:8-93 | an unknown action is a 400 and changes nothing; a known one updates the global singleton, then today's record, and nothing else |
| UsageStats.NewerDayOrder | app/api/stats/usage/route.ts:118-121 | newest-day-first is a strict weak order |
| UsageStats.RecentDaysSpec | app/api/stats/usage/route.ts:114-131 | the detailed view lists min(30, n) day records of the table, each at most as often as the table holds it (a sub-multiset), newest first, and every record it leaves out is older than every record it lists |
| UsageStats.RecentDays | app/api/stats/usage/route.ts:118-131 | the detailed query (`orderBy: date desc`, `take: 30`) returns min(30, n) records, each a record of the table |
| UsageStats.OmittedDayIsOlder | app/api/stats/usage/route.ts:114-131 | with one record per date, any day record the detailed view leaves out is dated strictly before every record it lists |
| UsageStats.Get | app/api/stats/usage/route.ts:96-145 | the type defaults to 'simple'. 'simple' returns the singleton, creating it if missing; 'detailed' returns it with the recent days; any other type is a 400 that creates nothing |
| Ranking.KindFilter | app/api/foods/ranking/route.ts:11-23 | 'dish' and 'drink' select their kind; any other type means every kind |
| Ranking.TakeRows | app/api/foods/ranking/route.ts:26-38 | `take: n` keeps the first n rows, or the last -n for negative n |
| Ranking.RoundNearest | app/api/foods/ranking/route.ts:66-67 | `Math.round` gives the nearest integer, with halves rounded up |
| Ranking.RoundShift | app/api/foods/ranking/route.ts:66-67 | rounding commutes with adding an integer |
| Ranking.Score | app/api/foods/ranking/route.ts:41-71 | the entry keeps its food; its rejection count is today's plus forever's |
| Ranking.ScoreSpec | app/api/foods/ranking/route.ts:41-71 | the rate is 0 without recommendations and otherwise the nearest tenth of accepts/recommends*100; the hot score in tenths is 20 per acceptance, plus one per recommendation, plus the rounded rate |
| Ranking.UnscoredFood | app/api/foods/ranking/route.ts:43-48 | a food without counters scores zero everywhere |
| Ranking.RanksBeforeOrder | app/api/foods/ranking/route.ts:72-78 | acceptances first, then the rounded hot score, both descending, is a strict weak order |
| Ranking.Numbered | app/api/foods/ranking/route.ts:81-84 | ranks are positions plus one |
| Ranking.RankFoods | app/api/foods/ranking/route.ts:8-101 | a limit that is not a number fails; otherwise `total` is the ranking's length and the type label is the given type or 'all' |
| Ranking.RankingSpec | app/api/foods/ranking/route.ts:26-93 | the ranking is exactly the fetched rows, scored and then reordered: the same multiset, at most `limit` of them (10 by default), sorted by the comparator, ties in store order, numbered 1..n |
| Ranking.RankedFoodsEligible | app/api/foods/ranking/route.ts:14-38 | every ranked food is an ACTIVE catalog row of the requested kind |
| Ranking.FetchedEligible | app/api/foods/ranking/route.ts:14-38 | the store query returns only catalog rows that are ACTIVE and, for `type` dish or drink, of that kind |
| Sorting.SortIsTheStableSort | app/api/foods/ranking/route.ts:72-78 | the comparator sort has exactly one stable result: every sorted permutation that keeps tied rows in store order equals `Sort` |
| BatchUpload.Rejection | app/api/foods/batch/route.ts:46-65 | a batch goes through iff it is an array of 1 to 50 items |
| BatchUpload.AnonymousUserIdempotent | app/api/foods/batch/route.ts:20-39 | a second get-or-create for the same fingerprint returns the same user and creates nothing |
| BatchUpload.GetOrCreateAnonymousUser | app/api/foods/batch/route.ts:20-39 | the user table, the uploader and the id generator become `AnonymousUser` of the old ones |
| BatchUpload.HasNamed | app/api/foods/batch/route.ts:101-106 | true iff some row has exactly that name and kind |
| BatchUpload.Classify | app/api/foods/batch/route.ts:89-111 | an item is an error iff its name or type is missing or the type is not DISH/DRINK; otherwise it is a duplicate or a new item, decided by its trimmed name and kind |
| BatchUpload.Post | app/api/foods/batch/route.ts:41-151 | a rejected batch changes nothing; otherwise the uploader is fetched or created, and the catalog, id generator and tally become the item loop's result |
| BatchUpload.ProcessItem | app/api/foods/batch/route.ts:84-133 | one iteration is one `Step` of the loop |
| BatchUpload.StepsSnoc | app/api/foods/batch/route.ts:84-133 | the loop over one more item is one more step, taken at clock reading `now + i` |
| BatchUpload.StepsAccountForEveryItem | app/api/foods/batch/route.ts:84-133 | every item lands in exactly one of inserted, duplicate or error |
| BatchUpload.StepsGrowCatalog | app/api/foods/batch/route.ts:114-128 | the loop only appends, one row per success, with consecutive fresh ids |
| BatchUpload.StepInsertsUploadedRow | app/api/foods/batch/route.ts:114-128 | a step inserts at most one row, at the end; that row has a trimmed name, status PENDING, no tags, is user-uploaded, comes from the uploader and ip, is stamped with the step's clock reading, and has a non-empty category and description (which ones is `NewItemInserted`) |
| BatchUpload.StepsInsertUploadedRows | app/api/foods/batch/route.ts:114-128 | every row the loop inserts is such an uploaded row, stamped within the batch's clock span, and a row inserted later has a later `createdAt` |
| BatchUpload.Steps | app/api/foods/batch/route.ts:84-133 | the item loop only appends to the catalog, at most one row per item; each awaited insert reads the clock afresh, item `k` at `now + k` |
| BatchUpload.StepsInsertNoRepeat | app/api/foods/batch/route.ts:100-128 | no inserted row repeats the (name, kind) of an earlier row, even within one batch |
| BatchUpload.InvalidItemInsertsNothing | app/api/foods/batch/route.ts:89-98 | an invalid item adds one error and inserts nothing |
| BatchUpload.DuplicateItemInsertsNothing | app/api/foods/batch/route.ts:100-111 | an existing (trimmed name, kind) is listed as a duplicate under its trimmed name, and nothing is inserted |
| BatchUpload.NewItemInserted | app/api/foods/batch/route.ts:113-128 | a new valid item is inserted with the next id and counted as a success |
| BatchUpload.BlankNameIsInserted | app/api/foods/batch/route.ts:89-128 | a name of spaces passes the check and is inserted with the empty name |
| Recommend.EligibleOf | app/api/recommend/route.ts:26-31 | the branch's query result is no longer than the catalog |
| Recommend.EligibleOfSpec | app/api/recommend/route.ts:26-31 | an item is eligible iff it is an ACTIVE catalog row of the kind |
| Recommend.PickIndexInRange | app/api/recommend/route.ts:65 | `Math.floor(Math.random() * n)` is a position of a non-empty list |
| Recommend.RatingStatsOf | app/api/recommend/route.ts:52-62 | the tally's total is likes plus dislikes |
| Recommend.RatingTotalBound | app/api/recommend/route.ts:52-62 | the total never exceeds the food's number of ratings |
| Recommend.PickFrom | app/api/recommend/route.ts:65 | the pick is one of the eligible items |
| Recommend.RecommendPick | app/api/recommend/route.ts:14-176 | the GET answers 404 only for a kind with no ACTIVE item, and every dish or drink it suggests is an ACTIVE catalog row of that kind |
| Recommend.DrinkBranch | app/api/recommend/route.ts:25-65 | for type 'drink' or onlyDrink: a 404 iff there is no ACTIVE drink; otherwise a drink is picked from them (type 'food' drops it again) |
| Recommend.DishBranch | app/api/recommend/route.ts:66-108 | for type 'food' or no type, without onlyDrink: a 404 iff there is no ACTIVE dish; otherwise the dish is the pick from them |
| Recommend.ExtraDrink | app/api/recommend/route.ts:111-148 | includeDrink adds a drink when there is one, and no drinks is not an error; type 'food' drops the drink |
| Recommend.DrinkPickedTwice | app/api/recommend/route.ts:25-148 | type 'drink' with includeDrink and some ACTIVE drink returns no dish and the second drink pick, the one drawn by the includeDrink block |
| Recommend.TypeShapesResult | app/api/recommend/route.ts:151-176 | type 'drink' returns no dish, type 'food' no drink, and any other non-empty type no dish |
| Recommend.SuggestionsAreEligible | app/api/recommend/route.ts:25-148 | every suggestion is an ACTIVE catalog row of the right kind |
| FoodsRoute.NewerOrder | app/api/foods/route.ts:71-73 | createdAt-descending is a strict weak order |
| FoodsRoute.WhereOf | app/api/foods/route.ts:50-66 | the query is accepted iff the status is absent, 'ALL' or a store status, and the kind is absent or a store kind |
| FoodsRoute.PageOfRows | app/api/foods/route.ts:68-104 | a page reports the requested page and limit, counts every row, and holds only rows from the input |
| FoodsRoute.ListFoods | app/api/foods/route.ts:8-113 | `all=true` and only it returns the whole catalog |
| FoodsRoute.AllFoodsNewestFirst | app/api/foods/route.ts:11-28 | `all=true` returns every row, whatever its status: a permutation of the catalog, newest first, rows with equal `createdAt` in insertion order |
| FoodsRoute.StatusDefault | app/api/foods/route.ts:51-59 | without a status only ACTIVE rows are listed; 'ALL' lists every status |
| FoodsRoute.SearchIgnoresTags | app/api/foods/route.ts:60-66 | tags never affect the search |
| FoodsRoute.PageRowsMatch | app/api/foods/route.ts:56-87 | `total` is the number of matching catalog rows, and every listed row is a matching catalog row |
| FoodsRoute.PageSpec | app/api/foods/route.ts:50-104 | GET without `all`, with a valid where-clause and numeric or absent page and limit, replies with `PageOfRows` of the matching rows, newest first, with page 1 and limit 50 when absent; the reply is a store failure iff the skip `(page-1)*limit` is negative |
| FoodsRoute.MatchingPage | app/api/foods/route.ts:55-104 | for page and limit of at least 1, that page lists the matching catalog rows, newest first, from `(page-1)*limit` on, at most `limit` of them; `total` counts every matching row and `totalPages` is the least page count that holds them |
| FoodsRoute.PageOfRowsSpec | app/api/foods/route.ts:68-104 | for page and limit of at least 1, the page holds the rows from `(page-1)*limit` on, in order, at most `limit` of them, and `totalPages` is the least number of pages that hold them all |
| FoodsRoute.CatalogFood | app/api/foods/route.ts:130-140 | the new row is as given, ACTIVE, not user-uploaded, with no tags unless tags were given |
| FoodsRoute.Create | app/api/foods/route.ts:117-155 | missing name, type or category is a 400 iff one is missing; an invalid type fails; otherwise exactly one row is appended with the next id, and nothing changes on a refusal |
| CatalogStats.Counts | app/api/stats/route.ts:14-50 | the total is dishes plus drinks, and each count is at most the catalog size |
| CatalogStats.TotalIsActiveCount | app/api/stats/route.ts:17-33 | the total is the number of ACTIVE rows |
| CatalogStats.AddedRowCounts | app/api/stats/route.ts:17-33 | a new non-ACTIVE row changes no count; an ACTIVE row raises its kind's count and the total by one |
| Paging.PageCount | app/api/foods/route.ts:103 | `Math.ceil(total/limit)` has no value (null in the reply) iff the limit is 0 |
| Paging.PageCountSpec | hooks/useFoodsCache.ts:118 | with a positive limit, the page count is the least number of pages holding every row |
| Paging.SliceIndex | hooks/useFoodsCache.ts:121 | a slice bound counts from the end when negative and is clamped to the list |
| Paging.Slice | hooks/useFoodsCache.ts:121 | a slice is never longer than the list |
| Paging.SkipTake | app/api/foods/route.ts:74-75 | a negative skip is refused; otherwise the window has at most `take` rows (or at most `-take` for negative take), all from the list |
| Paging.PageWindow | hooks/useFoodsCache.ts:117-131 | for page and limit of at least 1, the slice and the skip/take window agree: `min(limit, rows left)` rows from `(page-1)*limit` on |
| Paging.RowOnPage | app/api/foods/route.ts:74-104 | row i lies on page `i/limit + 1` at position `i%limit`, within the page count |
| ClientCatalog.CommaTags | hooks/useFoodsCache.ts:101-107 | comma-list tags are the pieces between the commas, each trimmed |
| ClientCatalog.TagsOf | hooks/useFoodsCache.ts:100-107 | array tags are used as they are, text starting with '[' is JSON-decoded, and any other text gives one tag per comma-separated piece (at least one) |
| ClientCatalog.SearchIgnoresCase | hooks/useFoodsCache.ts:97-113 | the local search ignores the case of its query |
| ClientCatalog.FilteredSpec | hooks/useFoodsCache.ts:84-113 | the three filters together are one order-preserving filter: a row is kept iff it passes the kind, status and search checks |
| ClientCatalog.FilteredFoodsSpec | hooks/useFoodsCache.ts:117-131 | the page holds the filtered rows from `(page-1)*limit` on, at most `limit` of them; `total` counts every filtered row; `totalPages` is the least page count |
| ClientCatalog.FilteredFoods | hooks/useFoodsCache.ts:83-130 | `getFilteredFoods` echoes page and limit, counts no more rows than the cache holds, and lists only cached rows, no more than it counts |
| ClientCatalog.ReplacedSpec | hooks/useFoodsCache.ts:140-146 | the update keeps length and positions, replaces exactly the entries with the id, and changes nothing when no entry has it |
| ClientCatalog.WithoutSpec | hooks/useFoodsCache.ts:149-156 | removal keeps exactly the entries with other ids, and removing a one-id list is removing that id |
| ClientCatalog.AddThenRemove | hooks/useFoodsCache.ts:135-151 | removing a just-added row with a new id restores the cache |
| ClientCatalog.StatsAddUp | hooks/useFoodsCache.ts:159-175 | dishes plus drinks, and active plus pending plus hidden, both equal the total |
| ClientCatalog.Stats | hooks/useFoodsCache.ts:159-175 | `getStats` reports the cache size as the total, and no kind or status count exceeds it |
| ClientCatalog.FoodsCache.constructor | hooks/useFoodsCache.ts:40-45 | the cache starts empty, never fetched |
| ClientCatalog.FoodsCache.FetchAll | hooks/useFoodsCache.ts:48-75 | a fresh cache (not forced, non-empty, younger than five minutes) is returned without a fetch. Otherwise a successful fetch replaces the cache and restarts its clock, and a failure returns `[]` and keeps the cache |
| ClientCatalog.FoodsCache.AddFood | hooks/useFoodsCache.ts:135-137 | the new row goes first; nothing else changes |
| ClientCatalog.FoodsCache.UpdateFood | hooks/useFoodsCache.ts:140-146 | the cache becomes `Replaced` of the old one |
| ClientCatalog.FoodsCache.RemoveFood | hooks/useFoodsCache.ts:149-151 | the cache becomes `Without` of the old one |
| ClientCatalog.FoodsCache.RemoveFoods | hooks/useFoodsCache.ts:154-156 | the cache becomes `WithoutAny` of the old one |
| RecommendationClient.NewSession | hooks/useRecommendationStats.ts:136-145 | a started session carries the server's ids, starts now and has no attempts |
| RecommendationClient.Touched | hooks/useRecommendationStats.ts:85-93 | the same session, active now, attempts unchanged |
| RecommendationClient.Attempted | hooks/useRecommendationStats.ts:168-175 | the same session, active now, one more attempt |
| RecommendationClient.Restored | hooks/useRecommendationStats.ts:40-62 | a stored session is restored iff it decodes and was active less than five minutes ago |
| RecommendationClient.KeptAfterLoad | hooks/useRecommendationStats.ts:40-62 | the load removes the stored entry iff it is expired or unreadable; otherwise storage stays as it was |
| RecommendationClient.SaveLoadRoundTrip | hooks/useRecommendationStats.ts:29-62 | a saved session loads back unchanged while fresh, and is removed afterwards; a saved `null` loads nothing |
| RecommendationClient.LoadIdempotent | hooks/useRecommendationStats.ts:40-62 | loading twice gives the same session and storage as loading once |
| RecommendationClient.AttemptKeepsSessionAlive | hooks/useRecommendationStats.ts:163-205 | after an attempt, a reload within five minutes restores the session with its new count |
| RecommendationClient.SessionTracker.constructor | hooks/useRecommendationStats.ts:24-27 | no current session, storage as left by an earlier page, nothing sent |
| RecommendationClient.SessionTracker.Save | hooks/useRecommendationStats.ts:29-37 | storage holds the session, or nothing for `null` |
| RecommendationClient.SessionTracker.Load | hooks/useRecommendationStats.ts:40-62 | the result is `Restored` of the old storage, and storage becomes `KeptAfterLoad` of it |
| RecommendationClient.SessionTracker.Restore | hooks/useRecommendationStats.ts:332-338 | a restored session becomes current and is in storage |
| RecommendationClient.SessionTracker.RecordUsage | hooks/useRecommendationStats.ts:96-112 | exactly one usage POST is sent |
| RecommendationClient.SessionTracker.UpdateActivity | hooks/useRecommendationStats.ts:85-93 | the touched session is current and stored |
| RecommendationClient.SessionTracker.StartSession | hooks/useRecommendationStats.ts:115-160 | 'session_start' and the session POST are sent; on success the new session is current and stored, otherwise nothing else changes |
| RecommendationClient.SessionTracker.RecordAttempt | hooks/useRecommendationStats.ts:163-205 | without a session nothing happens; otherwise 'attempt' and the PUT are sent, and the session gains one attempt and is stored |
| RecommendationClient.SessionTracker.Close | hooks/useRecommendationStats.ts:208-284 | after an accept or reject, both requests are sent; the session is cleared from memory and storage iff the server confirmed |
| RecommendationClient.SessionTracker.RecordAcceptance | hooks/useRecommendationStats.ts:208-244 | without a session nothing happens; otherwise 'accept' and its PUT are sent, and a confirmed accept clears the session |
| RecommendationClient.SessionTracker.RecordRejection | hooks/useRecommendationStats.ts:247-284 | the same for 'reject', with the rejection type in the PUT |
| RecommendationClient.SessionTracker.MarkCurrentAbandoned | hooks/useRecommendationStats.ts:287-311 | without a session nothing happens; otherwise 'abandon' and its PUT with the reason are sent, and the session is cleared once the PUT completes |
| RecommendationClient.SessionTracker.MarkSessionAbandoned | hooks/useRecommendationStats.ts:65-82 | one 'abandon' PUT with reason 'timeout' is sent for the session and nothing else changes (the hook never calls it) |
| RecommendationClient.SessionTracker.RecordClick | hooks/useRecommendationStats.ts:373-375 | one usage 'click' is sent |
| DeviceId.Utf16 | lib/device-fingerprint.ts:54-57 | a string has at least as many code units as characters |
| DeviceId.ToInt32 | lib/device-fingerprint.ts:56-57 | the wrapped value is a signed 32-bit integer congruent to its input modulo 2^32 |
| DeviceId.ToInt32Congruent | lib/device-fingerprint.ts:56-57 | congruent inputs wrap to the same value |
| DeviceId.StepIsTimes31 | lib/device-fingerprint.ts:55-57 | `(hash << 5) - hash + c`, then `hash & hash`, is `hash*31 + c` wrapped to 32 bits |
| DeviceId.HashFold | lib/device-fingerprint.ts:54-58 | the hash of every prefix is a signed 32-bit integer |
| DeviceId.HashIsWrappedPoly | lib/device-fingerprint.ts:51-60 | the rolling hash is the polynomial hash `sum c[i]*31^(n-1-i)` wrapped to 32 bits |
| DeviceId.HashCode | lib/device-fingerprint.ts:51-60 | the loop computes the absolute value of the fold, at most 2^31 |
| DeviceId.HashRange | lib/device-fingerprint.ts:53-59 | the empty string hashes to 0, and every hash lies in [0, 2^31] |
| DeviceId.GenerateFingerprint | lib/device-fingerprint.ts:2-48 | the fingerprint is the decimal of the hash of the traits joined with '\|' |
| DeviceId.FingerprintDigits | lib/device-fingerprint.ts:46-48 | a fingerprint is a non-empty digit string that reads back as the hash |
| Text.TrimSpec | app/api/foods/batch/route.ts:103 | `trim` removes exactly the leading and trailing ECMAScript white space and keeps the middle of the string |
| Text.TrimIdempotent | app/api/foods/batch/route.ts:103-116 | trimming a trimmed name changes nothing |
| Text.Split | hooks/useFoodsCache.ts:105 | `split` yields at least one piece, no piece contains the separator, and joining the pieces with it gives back the text |
| DeviceId.DeviceStore.GetDeviceId | lib/device-fingerprint.ts:63-77 | a stored non-empty id is returned unchanged; otherwise a new fingerprint is stored and returned |
| DeviceId.GetDeviceIdTwice | lib/device-fingerprint.ts:63-77 | once an id exists, later calls return it whatever the traits are |

## Left out

- RecommendationStats.GetStats: states only when the summary is returned and its session counts. The GET also returns a popular-foods list, rate strings and the average attempts, which are not modelled.
- Store failures are not modelled. The 500 replies the routes send when the database throws are left out, except a store query refusing a malformed parameter (a non-numeric limit, a negative skip, or a status or kind that is not a store value).
- Floating point is not modelled: scores, rates and page counts use exact rationals, so floating-point rounding is not captured.
- `parseInt` text parsing is not modelled. A numeric query parameter arrives as `Unset`, `Parsed(n)` or `NaN`.
- JSON encoding and decoding are not modelled. Decoding tag text that starts with '[' is a parameter of the client cache. The session storage entry is a decoded session, an empty string or unreadable text. Tags in the store are kept decoded, and the batch upload's empty tag text is modelled as no tags.
- The server-side fingerprint (a hash of request headers) that names the anonymous uploader is an input. So is the client IP.
- `generateDeviceFingerprint`'s server branch is not modelled: it uses the clock and `Math.random`. Neither are the browser reads that produce the traits; the trait strings are an input.
- Store-assigned defaults are not modelled. These are the cuid ids, modelled as natural numbers from one counter, the `createdAt` stamp of a new row, modelled as a clock reading passed in, and the store's own `updatedAt`/`lastUpdated` stamps.
- Concurrency between requests is not modelled: each handler is one atomic step. Neither are React state, loading flags, effect scheduling, or the page-unload and visibility listeners.
- `markSessionAsAbandoned` is defined in the hook but never called: loading drops an expired stored session without reporting it. `RecommendationClient.SessionTracker.MarkSessionAbandoned` models the function standing alone.
- Case folding covers ASCII letters only.
- FoodsRoute.AllFoodsNewestFirst, FoodsRoute.PageSpec, FoodsRoute.MatchingPage: rows with equal `createdAt` are listed in insertion order. Under `orderBy: { createdAt: 'desc' }` the store promises no order among ties. The batch upload's clock is modelled as advancing one tick per item, so its own rows never tie; rows from separate requests stamped in the same millisecond still can.
- Store queries without `orderBy` are modelled in insertion order: the ranking's `findMany({ where, take })` has none, so which `limit` rows `Ranking.TakeRows` keeps, and the store order the ranking's ties follow in `Ranking.RankingSpec`, are the table's insertion order. The real store promises no order there.
- ClientCatalog.TagsOf: a `tags` value that is neither an array nor a string (the hook reads it as no tags) is not representable in the model.
- The store's `contains` is modelled as an exact substring test: its collation is not modelled.
- `useRecommendationStats`'s `getStats` only relays the server's reply and is not modelled.
- The hooks' calls to `getDeviceId` are not modelled: the device id is passed in.
- RecommendationClient.SessionTracker.Close: callable only with 'accept' or 'reject'. It is the shared body of `recordAcceptance` and `recordRejection`, which are modelled separately.
- The admin pages and components that call these hooks, and the rating and single-food routes, are not part of this model.
