# Verified model of the issue-tracker service

A Dafny model of the stateful protocols of the service, with proofs of what they promise over
whole runs: cursor pagination over tables that change between pages, the Redis read models of
the issue tables (board cache, entity cache, status and sprint indexes), the sliding-window rate
limiter, the circuit breaker with notification delivery and its queue consumer, the WebSocket
replay buffer, the issue key generator, sprint completion, the mention scanner and the status
history.

Where the service changes state step by step, the model does too: classes with `modifies`
clauses and methods with the same loops, each proved against a specification function; run
properties are then proved about those functions. `dafny verify dfyconfig.toml` verifies the
project.

## Structure

- Foundations: `Wrappers`, `Arithmetic`, `Decimal`, `Ordering` (sort keys and sorted
  sequences), `SortedSets` (Redis sorted sets), `IsoDates` (`toISOString` text).
- Pagination: `KeysetPaging` (protocol and traversals), `CursorCodec`, `Listings` (the three SQL
  listings), `SprintIndexListing` (index page and merge), `IndexRefinement` (index path against
  database path), `IssueListing` (`list` as a whole).
- Issue read models: `RedisKeys`, `IssueWorld` (state and calls), `IssueManagement` (the code
  over its stores), `StatusIndex`, `SprintIndex`, `BoardCache`, `BoardStaleness`, `EntityCache`,
  `StatusHistory`.
- The other protocols: `RateLimiter`, `RateLimiterRaces`, `CircuitBreaker`,
  `NotificationDelivery`, `ReplayBuffer`, `IssueKeys`, `Sprints`, `Mentions`.

## What the proofs found

The code was kept as it is; where a promise does not hold, a lemma exhibits the failure and
another gives the exact condition under which it does hold.

- The creation-time columns have microseconds, the cursor only milliseconds. The descending
  listings never repeat a row but lose a row that lies between a page's last row and that row's
  time cut to the millisecond; the ascending comment list never loses a row but repeats, and
  can return its first page for ever. With times in whole milliseconds (at page boundaries)
  both are exact. The columns default to `CURRENT_TIMESTAMP(6)`, so microseconds are the rule.
- A sprint-only listing that starts on a cold index stops after its first page: the database
  puts a date into the cursor, the page warms the index, and the index wants a score. An index
  cursor on a cold index depends on whether the database takes its digits for a date.
- `limit` 0 gives `hasMore` without a cursor, and so does an index page whose ids are all gone.
- A sprint called "backlog" shares the board cache slot of the backlog. Sprint ids are UUIDs,
  but the board read does not check.
- Nothing writes `HALF_OPEN` although the class comment describes it; the failure counter of a
  process is therefore cumulative, and after the threshold every single failure opens the
  breaker again.
- Receptions while the breaker is OPEN use up `maxReceiveCount`: a job can reach the dead-letter
  queue without one attempt to save it, and nothing takes it out again. Without a queue URL a
  failed save loses the notification. With one, a notification is stored up to four times.
- The counter is gap-free, as the migration's comment says, but a failed save of the issue after
  its key was returned leaves a gap in the issues' keys.
- Sprint completion invalidates no board, entity or sprint index; each of the three stays right
  exactly when the completion changes none of its issues. Moving an issue invalidates only the
  new sprint's index. A status index is exact as long as its key is not lost, and after a loss
  a warm one can be partial.
- `incompleteCount` is the number of moved issues unless an unfinished issue is carried into
  the very sprint that is completed.
- A board read is two queries and a later store: an invalidation in between leaves the old
  board cached, and writes between the queries a board the database never had.
- Requests of the rate limiter that interleave admit up to N - 1 more than the maximum.

## Model

| member | source | states |
|---|---|---|
| KeysetPaging.SkipSplits | src/modules/issues/IssueQueryService.ts:209-218 | a cursor's WHERE condition selects exactly a suffix of the sorted listing |
| KeysetPaging.CursorPresent | src/modules/issues/IssueQueryService.ts:221-226 | in the database listings hasMore always comes with a cursor, for every listing, iff limit >= 1 |
| KeysetPaging.StaticPaging | src/modules/issues/IssueQueryService.ts:194-226 | over an unchanging listing the pages concatenate to it iff every page boundary is clean; then there are max(1, ceil(n/limit)) pages, all but the last of exactly limit rows |
| KeysetPaging.PagesNeededIsCeiling | src/modules/issues/IssueQueryService.ts:221-223 | the page count is the least r >= 1 with n <= r * limit |
| KeysetPaging.CleanMeans | src/modules/issues/IssueQueryService.ts:210-217 | which boundaries are clean: ascending, iff the last row is on a whole millisecond; descending, iff the next row lies before that row's time cut to the millisecond; index, iff the scores differ |
| KeysetPaging.AscendingStuck | src/modules/comments/CommentRepository.ts:33-50 | a comment page that ends in the millisecond it starts in is returned again for ever |
| KeysetPaging.DescendingNeverSlides | src/modules/activity/ActivityRepository.ts:41-56 | whatever the times, a descending cursor never admits the last row of its page or anything before it |
| KeysetPaging.NeverTwice | src/modules/issues/IssueQueryService.ts:194-226 | over listings that change between pages, all returned keys are strictly in listing order, if no cursor slides back |
| KeysetPaging.OrderIffNoBackslide | src/modules/issues/IssueQueryService.ts:194-226 | a traversal of a changing listing is strictly in order, so without repetition, iff no cursor leads back |
| KeysetPaging.AscendingOrderIff | src/modules/comments/CommentRepository.ts:26-51 | while no comment that ends a page is deleted, that holds of comments iff every page but the last ends on a whole millisecond |
| KeysetPaging.DescendingTraversal | src/modules/activity/ActivityRepository.ts:30-57 | changing table, any times: no row twice, and a row present throughout is returned iff no page boundary's gap covers it |
| KeysetPaging.AscendingTraversal | src/modules/comments/CommentRepository.ts:26-51 | changing table, any times: a comment present throughout is always returned |
| KeysetPaging.ExactlyOnce | src/modules/comments/CommentRepository.ts:26-51 | if pages end on whole milliseconds, both directions return no row twice and every row present throughout |
| Listings.QueryIsSuffix | src/modules/issues/IssueQueryService.ts:190-220 | filtering by the cursor and then sorting equals the rest of the sorted listing after the cursor |
| Listings.RenderParse | src/modules/issues/IssueQueryService.ts:209-226 | every cursor text a database listing hands out reads back as the same time and id |
| Listings.FetchPage | src/modules/issues/IssueQueryService.ts:209-226 | limit + 1 rows fetched and trimmed give exactly the page of the listing and its cursor text; an error iff the database takes the cursor's date for none, whatever it makes of texts other than toISOString's |
| Listings.ListIssues | src/modules/issues/IssueQueryService.ts:185-226 | the page of the listing that holds exactly the issues of the project without deletedAt that match the given filters; a sprint filter of null or "" means the backlog |
| Listings.ListActivity | src/modules/activity/ActivityRepository.ts:24-58 | the same for the activity feed and its three optional filters |
| Listings.ListComments | src/modules/comments/CommentRepository.ts:25-52 | the same, ascending, for live top-level comments of an issue |
| Listings.UnchangingTable | src/modules/issues/IssueQueryService.ts:194-226 | over an unchanging table with whole-millisecond times, following the replies' nextCursor texts gives the whole filtered list, in ceil(n/limit) replies of limit rows but the last |
| Listings.FollowIsTraverse | src/modules/issues/IssueQueryService.ts:209-226 | reply by reply, sending nextCursor texts back is the traversal of the listing |
| Listings.ChangingTable | src/modules/issues/IssueQueryService.ts:194-226 | rows inserted and deleted between requests, whole-millisecond times: following nextCursor texts returns no row twice and each row present and matching throughout exactly once |
| Listings.ChangingTableMicros | src/modules/issues/IssueQueryService.ts:209-226 | with microseconds: strictly descending keys, and a row present throughout is lost iff it lies between a reply's last row and the point its cursor text resumes from |
| Listings.ChangingComments | src/modules/comments/CommentRepository.ts:25-52 | with microseconds: no comment present throughout is lost |
| Listings.LostIssue | src/modules/issues/IssueQueryService.ts:214-225 | two issues 300 microseconds apart, pages of one: the older one is never listed |
| Listings.EndlessComments | src/modules/comments/CommentRepository.ts:38-49 | two comments, pages of one: every page is the first one |
| IsoDates.IsoRoundTrip | src/modules/issues/IssueQueryService.ts:225 | the toISOString text of every instant of 1970 to 9999 names that instant |
| IsoDates.IsoLayout | src/modules/issues/IssueQueryService.ts:225 | which characters of the text are year, month, day, hour, minute, second and millisecond of the instant |
| IsoDates.DateOf | src/modules/issues/IssueQueryService.ts:225 | the date is a calendar date, leap years included, and lies the given number of days after 1970-01-01 |
| CursorCodec.Base64RoundTrip | src/core/types/Pagination.ts:13-18 | unpadded base64url decoding inverts encoding on every byte string, for all three tail lengths |
| CursorCodec.Base64Groups | src/core/types/Pagination.ts:13-14 | the encoding is that of RFC 4648: 24 bits at a time, most significant first, six to a symbol, with unpadded tails |
| CursorCodec.SymbolIs | src/core/types/Pagination.ts:13-14 | the alphabet is the URL-safe one of RFC 4648 |
| CursorCodec.Utf8RoundTrip | src/core/types/Pagination.ts:13-18 | UTF-8 decoding inverts encoding on every text |
| CursorCodec.CodePointMeans | src/core/types/Pagination.ts:13-14 | each code point is encoded in the length, lead byte and continuation bytes RFC 3629 gives it |
| CursorCodec.CursorRoundTrip | src/core/types/Pagination.ts:13-18 | decodeCursor(encodeCursor(value)) is value, for every text |
| CursorCodec.SplitRoundTrip | src/modules/issues/IssueQueryService.ts:211-213 | splitting date__id at the last "__" gives both back, for every date, iff the id neither starts with "_" nor contains "__" |
| CursorCodec.EncodedSplitRoundTrip | src/modules/issues/IssueQueryService.ts:210-225 | the same through the codec |
| SprintIndexListing.GetSprintIssueIds | src/infrastructure/cache/IssueIndexCache.ts:102-124 | nothing on a cold index, an error on a cursor that is no score, otherwise exactly the ids of the page of the descending index |
| SprintIndexListing.SelectByIds | src/modules/issues/IssueQueryService.ts:169-179 | a row is returned under an id iff the id is asked for and the row is in the table, has that id and has no deletedAt |
| SprintIndexListing.FetchIssuesByIds | src/modules/issues/IssueQueryService.ts:161-183 | a row is returned iff it is the cached entity of a requested id, or the table row of a requested uncached id and not deleted; in the order of the ids, one answer for each id that has one |
| SprintIndexListing.ListFromIndex | src/modules/issues/IssueQueryService.ts:135-151 | items, cursor and hasMore of a sprint listing served from the index; every item is cached or a row without deletedAt |
| SprintIndexListing.DeadPageIff | src/modules/issues/IssueQueryService.ts:143-150 | an index page says hasMore without a cursor iff more ids follow and no id of the page is cached or has a row without deletedAt |
| SprintIndexListing.DeadPage | src/modules/issues/IssueQueryService.ts:143-150 | it happens at every page size |
| SprintIndexListing.RenderParseScore | src/modules/issues/IssueQueryService.ts:146-149 | an index cursor's text reads back as its score and id |
| IndexRefinement.FastPageExact | src/modules/issues/IssueQueryService.ts:143-150 | on an exact index and a sound entity cache, one reply serves exactly the live matching issues of the index page, and its cursor text leads where that page's cursor does |
| IndexRefinement.IndexOrderIsListing | src/infrastructure/cache/IssueIndexCache.ts:102-124 | an exact index with distinct scores, read backwards, is the database listing |
| IndexRefinement.FastPathRefinesDatabase | src/modules/issues/IssueQueryService.ts:135-183 | then, with distinct scores, following the index's nextCursor texts through id page and cache merge returns the same live rows in the same order, in as many replies, as following the database's: the whole listing |
| IndexRefinement.FastPathTies | src/infrastructure/cache/IssueIndexCache.ts:116-119 | with equal scores, following the index's cursor texts serves every issue of the index iff no page boundary splits a tie |
| IssueListing.IssueStore.List | src/modules/issues/IssueQueryService.ts:124-156 | a warm index serves sprint-only requests, the database all others, and a cold index is warmed by exactly the page returned |
| IssueListing.WarmedMeans | src/modules/issues/IssueQueryService.ts:228-231 | warming puts exactly the issues of the page into the index, scored by creation time, and moves nothing else |
| IssueListing.CursorKinds | src/infrastructure/cache/IssueIndexCache.ts:112-117 | no database cursor is read as a score, and no index cursor holds a toISOString date |
| IssueListing.DatabaseCursorNeedsColdIndex | src/modules/issues/IssueQueryService.ts:135-155 | a cursor handed out by the database is accepted iff the index is cold at the next request |
| IssueListing.IndexCursorNeedsWarmIndex | src/modules/issues/IssueQueryService.ts:135-155 | a cursor handed out by the index is accepted iff the index is still warm at the next request or the database takes the score in it for a date |
| IssueListing.ColdListingStops | src/modules/issues/IssueQueryService.ts:224-233 | a sprint listing of more than limit issues that starts cold warms its index, and its second request then fails |
| RedisKeys.PatternIsolates | src/infrastructure/cache/CacheKeys.ts:4-8 | a project's board pattern matches all its board keys and no other project's |
| RedisKeys.BoardKeyClash | src/infrastructure/cache/CacheKeys.ts:4-5 | two board keys are equal iff project and sprint are, up to a sprint called "backlog" |
| RedisKeys.SprintKeyClash | src/infrastructure/cache/CacheKeys.ts:18-19 | when two sprint index keys are equal |
| RedisKeys.StatusKeyClash | src/infrastructure/cache/CacheKeys.ts:22-23 | status index keys are equal iff project and status are |
| RedisKeys.FamiliesDisjoint | src/infrastructure/cache/CacheKeys.ts:17-23 | no key is both a sprint and a status index key |
| IssueManagement.Redis.InvalidatePattern | src/infrastructure/cache/RedisCache.ts:33-42 | the SCAN loop deletes exactly the keys that match, whatever batches a full iteration returns |
| IssueManagement.Redis.AddIssue | src/infrastructure/cache/IssueIndexCache.ts:21-28 | the new index contents after addIssue |
| IssueManagement.Redis.RemoveIssue | src/infrastructure/cache/IssueIndexCache.ts:31-37 | the new index contents after removeIssue |
| IssueManagement.Redis.UpdateIssueStatus | src/infrastructure/cache/IssueIndexCache.ts:43-55 | the new index contents after updateIssueStatus |
| IssueManagement.Redis.PopulateFromIssues | src/infrastructure/cache/IssueIndexCache.ts:62-79 | the loop's index contents after populateFromIssues, for every row list |
| IssueManagement.IssueManager.Create | src/modules/issues/IssueManager.ts:28-40 | succeeds iff the project is known, the id fresh and a status is given or a TODO one exists; then the new row, log entry and index entries |
| IssueManagement.CreateMeans | src/modules/issues/IssueCommandService.ts:40-69 | the same of the call that the run properties are about |
| IssueWorld.StatusForMeans | src/modules/issues/IssueCommandService.ts:43-49 | a given non-empty status wins; otherwise the first status of category TODO, and none iff there is none |
| IssueManagement.IssueManager.Update | src/modules/issues/IssueManager.ts:47-63 | succeeds iff the issue is live; then its new columns and sprint, the log entry, the dropped entity and, if a sprint is given, the dropped index of that sprint |
| IssueManagement.UpdateMeans | src/modules/issues/IssueCommandService.ts:87-115 | the same of the call that the run properties are about |
| IssueManagement.IssueManager.Transition | src/modules/issues/IssueManager.ts:70-94 | succeeds iff the issue is live, the edge configured and the hooks pass; then the issue has the new status, the log a STATUS_CHANGED entry, and the index entry has moved; otherwise nothing changes |
| IssueManagement.TransitionMeans | src/modules/workflow/WorkflowEngine.ts:31-62 | the same of the call that the run properties are about |
| IssueManagement.IssueManager.Delete | src/modules/issues/IssueManager.ts:97-104 | succeeds iff the issue is live; then its row is deleted and it is in neither index |
| IssueManagement.DeleteMeans | src/modules/issues/IssueCommandService.ts:150-155 | the same of the call that the run properties are about |
| IssueManagement.IssueManager.GetBoard | src/modules/issues/IssueQueryService.ts:36-90 | the cached board, or else the one grouped from the query's rows, whatever their order; then cached, with the indexes warmed |
| IssueManagement.BuildIsBoard | src/modules/issues/IssueQueryService.ts:61-86 | one column per status, in order, with a card for exactly the live issues of the project, sprint (or backlog) and status, carrying their columns |
| IssueManagement.IssueManager.GetById | src/modules/issues/IssueQueryService.ts:101-110 | the cached entity, or else the live row, which is then cached |
| StatusIndex.StatusIndexSound | src/modules/issues/IssueManager.ts:34-103 | over every run of commands, reads, completions and key losses, each member of a status set is a live issue of that project and status, scored by its creation time |
| StatusIndex.AtMostOneStatusSet | src/infrastructure/cache/IssueIndexCache.ts:43-55 | over every run no issue is in two status sets |
| StatusIndex.ExactUnlessLost | src/modules/issues/IssueManager.ts:65-103 | over every run in which this key is not lost, a status set holds exactly the live issues of its project and status, scored by creation time |
| StatusIndex.LossKeepsExactIff | src/infrastructure/cache/IssueIndexCache.ts:86-94 | losing the key keeps the set exact iff no live issue is in that column |
| StatusIndex.BoardReadFills | src/infrastructure/cache/IssueIndexCache.ts:62-79 | a board read that misses the cache puts every issue of the board into its status set |
| StatusIndex.WarmButPartial | src/infrastructure/cache/IssueIndexCache.ts:86-94 | after an eviction and one create, a warm status set holds only the new issue |
| SprintIndex.StaysExact | src/modules/issues/IssueManager.ts:28-104 | an exact sprint index stays exact over every run of creates, transitions, deletes, updates without a sprint, reads, and completions that move no issue into or out of the sprint |
| SprintIndex.BoardReadCompletes | src/modules/issues/IssueQueryService.ts:58-59 | a board read that misses the board cache makes a sound sprint index exact |
| SprintIndex.MoveBreaksOldIndex | src/modules/issues/IssueManager.ts:58-60 | moving an issue empties the new sprint's index and leaves the issue in the old one's, which is sound iff both are one key |
| SprintIndex.CompletionKeepsIndexIff | src/modules/sprints/SprintService.ts:112-120 | a completion keeps the exact index of any sprint, or of the backlog, exact iff no unfinished issue of the project enters or leaves that sprint |
| BoardCache.CacheRefinesRebuild | src/modules/issues/IssueQueryService.ts:36-90 | over every run of issue commands, reads, key losses and completions that cross no cached board, every cached board equals the board built fresh |
| BoardCache.ServedIsFresh | src/modules/issues/IssueQueryService.ts:37-39 | so every board served is the fresh one |
| BoardCache.CompletionFreshIff | src/modules/sprints/SprintService.ts:112-136 | a completion keeps the cached boards fresh iff none of them gains, loses or rewrites a card: of the completed sprint, its successor, the backlog or any other |
| BoardCache.SameBoardIff | src/modules/issues/IssueQueryService.ts:61-86 | two tables with the same issues in the same statuses give one board iff every issue in a column has the same card |
| BoardCache.BuildShows | src/modules/issues/IssueQueryService.ts:61-86 | a fresh board shows an issue iff it is live, in that project and sprint, and its status is a column |
| BoardCache.BacklogSlotShared | src/infrastructure/cache/CacheKeys.ts:4-5 | after a read of a sprint called "backlog", the backlog's board is that sprint's and hides the backlog's issues |
| BoardCache.CompletionLeavesStaleBoard | src/modules/sprints/SprintService.ts:112-136 | after a completion the cached board still shows an unfinished issue that the fresh board does not |
| BoardStaleness.StalenessBound | src/modules/issues/IssueQueryService.ts:37-90 | whatever changes the database, a board served has the columns of one instant and the cards of another, both within the last 300 s plus the delay between query and store; it is the board of the latter instant iff the project's columns were the same at both |
| BoardStaleness.RaceServesOldBoard | src/modules/issues/IssueQueryService.ts:41-88 | a write and its invalidation between the queries and the store leave the old board served until it expires |
| BoardStaleness.TornBoard | src/modules/issues/IssueQueryService.ts:41-56 | two writes between the two queries leave a cached board that no version of the database ever had |
| EntityCache.CacheExact | src/infrastructure/cache/IssueEntityCache.ts:11-27 | over every run whose completions rewrite no cached issue, a cached entity is the live row |
| EntityCache.CacheNeverWrongIssue | src/infrastructure/cache/IssueEntityCache.ts:11-27 | over every run a cached entity is a live issue with its right project, status and creation time |
| EntityCache.CompletionExactIff | src/modules/sprints/SprintService.ts:115-120 | a completion keeps the entity cache exact iff it rewrites no cached issue |
| StatusHistory.StatusHistoryReplays | src/modules/workflow/WorkflowEngine.ts:31-62 | over every run, folding an issue's status changes from its creation status gives its current status; consecutive changes chain and each is a configured edge |
| RateLimiter.Limiter.Handle | src/core/middleware/rateLimiter.ts:16-44 | decision and new sorted set of one request, key expiry included |
| RateLimiter.DecisionExact | src/core/middleware/rateLimiter.ts:20-34 | a request is rejected iff max were accepted in the 60 000 ms before it |
| RateLimiter.WindowBound | src/core/middleware/rateLimiter.ts:20-38 | every half-open window of 60 000 ms, at any offset, holds at most max accepted requests |
| RateLimiter.ExpiryInvisible | src/core/middleware/rateLimiter.ts:38 | expiry of the whole key changes no decision and no set |
| RateLimiterRaces.RaceBoundFromIdle | src/core/middleware/rateLimiter.ts:23-38 | with prune, count and add interleaved and at most n requests in flight, the set never holds more than max + n - 1 |
| RateLimiterRaces.RaceBoundReached | src/core/middleware/rateLimiter.ts:23-38 | for every max and n some run reaches max + n - 1 |
| CircuitBreaker.Instance.Execute | src/modules/notifications/CircuitBreaker.ts:42-62 | outcome, counter and Redis key after one call |
| CircuitBreaker.NeverHalfOpen | src/modules/notifications/CircuitBreaker.ts:30-62 | no run of sequential calls ever sees HALF_OPEN, and the counter is the number of all failures so far |
| CircuitBreaker.HalfOpenProbe | src/modules/notifications/CircuitBreaker.ts:42-61 | whoever writes HALF_OPEN or drops the key, in every run: a call is turned away only if fn has failed threshold times since the last successful probe, and a failure leaves the breaker open for the timeout iff it has |
| CircuitBreaker.ProbeRecovers | src/modules/notifications/CircuitBreaker.ts:47-52 | after a successful probe the breaker is CLOSED, and no call is turned away in any run with fewer than threshold failing calls |
| CircuitBreaker.OneFailureReopens | src/modules/notifications/CircuitBreaker.ts:54-59 | after the threshold, a call is rejected iff it starts within the timeout after the last failure |
| CircuitBreaker.FailureBound | src/modules/notifications/CircuitBreaker.ts:42-61 | fn fails at most threshold + floor((t - t0)/timeout) times up to t, t0 being the threshold-th failure |
| CircuitBreaker.FailureBoundReached | src/modules/notifications/CircuitBreaker.ts:42-61 | for every threshold and timeout a run of failing probes reaches the bound |
| NotificationDelivery.Stores.Deliver | src/modules/notifications/NotificationService.ts:51-79 | deliver is save, or else enqueue with its error swallowed, and always returns; the row, message or loss is stated for each outcome |
| NotificationDelivery.Stores.Callback | src/modules/notifications/SqsConsumer.ts:52-76 | one message: skipped while OPEN, else saved and only then deleted; the row added and the message gone are stated for each outcome |
| NotificationDelivery.Stores.Poll | src/modules/notifications/SqsConsumer.ts:49-79 | a batch runs every callback, whatever the others do |
| NotificationDelivery.NothingLost | src/modules/notifications/NotificationService.ts:60-78 | in every reachable state a returned delivery is a row or a message (queued, in flight or dead-lettered) unless dropped; deleted jobs were saved; dead letters were received three times |
| NotificationDelivery.DeleteRemoves | src/modules/notifications/SqsConsumer.ts:67-70 | a delete takes exactly the callback's message off the queue, unless it was dead-lettered |
| NotificationDelivery.NeverAgain | src/modules/notifications/SqsConsumer.ts:67-70 | a job off the queue stays off it and is never received again, in any run |
| NotificationDelivery.ExactlyOnceWhenClean | src/modules/notifications/SqsConsumer.ts:49-79 | in every run without a save that commits and throws, a crash or lost delete after a save, or a visibility timeout under a working callback, no notification has two rows, and one that was not dropped has one as soon as it is off the queue |
| NotificationDelivery.DroppedMeans | src/modules/notifications/NotificationService.ts:75-77 | with a queue configured, dropped means that this enqueue threw |
| NotificationDelivery.UnconfiguredKeeps | src/modules/notifications/SqsProducer.ts:28-32 | without a queue URL, in every run, exactly those notifications exist whose own save reached the table |
| NotificationDelivery.UnconfiguredLoses | src/modules/notifications/SqsProducer.ts:28-32 | any new notification can be lost so, though deliver returns |
| NotificationDelivery.MayDuplicate | src/modules/notifications/SqsConsumer.ts:57-70 | from every state with a queued job, some run stores it three times |
| NotificationDelivery.DuplicatesBounded | src/modules/notifications/SqsConsumer.ts:49-79 | no run stores a notification more than 1 + maxReceiveCount times |
| NotificationDelivery.DuplicatesReached | src/modules/notifications/SqsConsumer.ts:49-79 | for every notification some run stores it that often |
| NotificationDelivery.ParkedUntried | src/modules/notifications/SqsConsumer.ts:55-57 | from every state with a fresh queued job, receptions while OPEN dead-letter it without a save |
| NotificationDelivery.ParkedForever | elasticmq.conf:8-15 | a dead-lettered job no consumer holds is never stored, in any run |
| ReplayBuffer.Room.Append | src/modules/websocket/WebSocketService.ts:103-112 | the buffer after an append: time trim, then cap |
| ReplayBuffer.Room.Replay | src/modules/websocket/WebSocketService.ts:115-121 | sent are the payloads of exactly the buffer entries later than since, in (score, member) order |
| ReplayBuffer.ReplayedMeans | src/modules/websocket/WebSocketService.ts:115-121 | the same of the function the run properties are about |
| ReplayBuffer.BufferIsTrimmedLog | src/modules/websocket/WebSocketService.ts:103-112 | over every run the buffer is the last 30 s of everything appended, capped at the 100 latest |
| ReplayBuffer.ReplayExact | src/modules/websocket/WebSocketService.ts:115-121 | a client gets every later event iff there are at most 100 and none had left the window at the last append |
| ReplayBuffer.ReplayMissesNothing | src/modules/websocket/constants.ts:4-5 | so a client at most 30 s behind with at most 100 later events is sent the payload of every later event and no other, none twice, in (score, member) order |
| IssueKeys.Database.Next | src/modules/issues/IssueKeyGenerator.ts:13-27 | the next number and key on commit, nothing on an abort or at the counter's maximum |
| IssueKeys.ReturnedGapFree | src/modules/issues/IssueKeyGenerator.ts:18-26 | in every interleaving, aborts included, the numbers returned for a project are 1, 2, … up to its counter |
| IssueKeys.IssueGaps | src/modules/issues/IssueCommandService.ts:51-59 | the saved issues carry all those numbers iff every returned key was then saved |
| IssueKeys.RenderInjective | src/modules/projects/schemas/projectSchemas.ts:5 | project key and number can be read off an issue key, since project keys have no "-" |
| IssueKeys.RenderMeans | src/modules/issues/IssueKeyGenerator.ts:25 | an issue key is the project key, "-" and the decimal number without leading zeros |
| IssueKeys.KeysDistinct | src/modules/issues/IssueKeyGenerator.ts:13-27 | no two returned keys are equal, across projects and connections |
| Sprints.Service.Start | src/modules/sprints/SprintService.ts:52-81 | starts, to ACTIVE, iff planned and no other sprint of the project is active, with each error case |
| Sprints.Service.Complete | src/modules/sprints/SprintService.ts:95-137 | completes iff active; every live issue of the sprint in a status other than DONE ends in the next sprint if carried and else in the backlog, no other changes; the stored velocity is the sum of the DONE points; incompleteCount counts the unfinished issues |
| Sprints.CompletionConserves | src/modules/sprints/SprintService.ts:109-120 | no issue is lost; listed unfinished issues end in the next sprint, others in the backlog, all else unchanged; the stored velocity is the sum of the DONE points both before and after |
| Sprints.VelocityIsDonePoints | src/modules/sprints/SprintRepository.ts:37-45 | the velocity is the one measure that gives a live DONE issue of the sprint its points, any other issue 0, and adds up over lists |
| Sprints.CountExact | src/modules/sprints/SprintService.ts:112-129 | incompleteCount is the number of issues moved, and the sprint keeps no unfinished issue, iff none is carried into the sprint itself |
| IssueWorld.CompletionMeans | src/modules/sprints/SprintService.ts:112-120 | the same completion as seen by the read models: which issues move where, and that no cache changes |
| Sprints.Incomplete | src/modules/sprints/SprintRepository.ts:25-31 | exactly the live issues of the sprint whose status is not DONE |
| Sprints.IncompleteMeans | src/modules/sprints/SprintRepository.ts:25-31 | the same, spelled out on the issue's own fields |
| Sprints.AtMostOneActive | src/modules/sprints/SprintService.ts:52-137 | over every run no project has two active sprints, and a sprint has a velocity iff completed |
| Sprints.CompletedIsFinal | src/modules/sprints/SprintService.ts:58-107 | no run changes a completed sprint |
| Mentions.NextMatch | src/modules/comments/MentionParser.ts:16 | one regex match: the next mention and where scanning goes on |
| Mentions.Extract | src/modules/comments/MentionParser.ts:13-21 | the scanning loop returns the deduplicated list of all mentions |
| Mentions.ExtractMeans | src/modules/comments/MentionParser.ts:13-21 | a handle is returned iff some "@" is followed by a maximal non-empty run of word characters that lower-cases to it; distinct, in order of first mention |
| Mentions.LowerMeans | src/modules/comments/MentionParser.ts:17 | lower-casing takes each capital to its small letter and leaves all else |
| Mentions.RenderExtract | src/modules/comments/MentionParser.ts:13-21 | extracting from "@h" texts joined by spaces gives back every list of distinct lower-case handles |

## Left out

- IssueManagement.IssueManager.Update: does not model the optimistic-lock conflict (the version comparison is inside the ORM's save); versions and update times belong to the opaque `data` column.
- IssueManagement.IssueManager.Transition: workflow hooks are one boolean, and auto-actions, which only assign a reviewer after the row is written, are part of `data`.
- IssueManagement.IssueManager.Create: the key counter is advanced in `IssueKeys`, not here; a clash of primary keys is an error that changes nothing.
- IssueManagement.IssueManager.GetBoard: boards carry no `cachedAt` and no card order (the query gives none); cards keep the id and the copied columns.
- BoardStaleness.StalenessBound: expiry is counted from the store, so the bound adds the delay between query and store, which the code does not limit.
- IssueListing.IssueStore.List: holds the one index that the request names; the status sets warmed by the same page are in `IssueManagement.Redis.PopulateFromIssues`. Warming is fire-and-forget in the code and complete before the next request here.
- Listings.FetchPage: the database may read date texts other than `toISOString`'s as it likes, but as whole milliseconds; a hand-made cursor with microseconds is not modelled.
- SprintIndexListing.GetSprintIssueIds: score bounds are integers; Redis also reads fractions, exponents and infinities.
- CursorCodec.CursorRoundTrip: strings are sequences of Unicode scalar values, so lone surrogates are not modelled; malformed UTF-8 decodes to one replacement character per byte.
- EntityCache.CacheExact: compares the row; the cached JSON also carries the joined status, assignee, reporter, sprint and parent, which their own updates (a sprint start, say) leave stale.
- IssueManagement.IssueManager.GetById: the joined relations are not modelled, for the same reason.
- RedisKeys.PatternIsolates: glob classes and escapes do not occur in the service's patterns and are not modelled; project ids are UUIDs without ":" or glob characters.
- CircuitBreaker.FailureBound: one breaker instance with one call at a time; overlapping calls and several processes that share the Redis key are not modelled.
- RateLimiter.Limiter.Handle: one client address; member names are taken to be distinct, which the code gets from a random suffix.
- ReplayBuffer.Room.Replay: `since` is an integer, and the socket stays open while events are sent.
- Sprints.Service.Start: start and complete are atomic steps; interleaved starts, the advisory locks and start dates are not modelled.
- IssueKeys.Database.Next: waiting for the row lock and deadlock victims appear as disabled steps and aborts of the state machine; the connection pool is not modelled.
- StatusHistory.StatusHistoryReplays: events reach the activity log at once; in the code the subscriber writes asynchronously.
- NotificationDelivery.NothingLost: visibility timeouts, receptions and failures are events in any order; SQS timing, the concurrency limit of the consumer and its stop flag are not modelled.
- `Issue` rows of the read models, `Row`s of the listings and the issues of `Sprints` are separate representations of one table, each with the columns its properties need.
- Redis and MySQL commands are taken to behave as documented and to succeed inside `Promise.allSettled`.
- Search, RBAC, membership cache, comments' authorship, sprint list cache, attachments, sockets and heartbeat, HTTP routes, validation and logging: plumbing or easy members.
