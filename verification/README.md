# Verification of the feed reader

This project models the parts of the feed reader whose correctness is hardest to see from the code,
and proves what they promise with Dafny 4.11. `dafny verify dfyconfig.toml` checks everything.

## What is modelled

- **Ignore windows** (`Calendar`, `WindowSweep`, `IgnoreWindow`, `WindowText`, `NextFetch`): weekly
  all-day, intraday and overnight windows over integer nanoseconds with a fixed zone offset; the loop
  that pushes a fetch time past them; the API's validation; the browser's second implementation of
  the test; and the stored time of the next fetch.
- **Paging and synchronisation** (`Order`, `Paging`, `ItemList`, `ItemReads`, `ReadSync`, `ReadCache`):
  keyset pages over compound keys, the loops that follow page tokens, the item lists, and the browser's
  anchor and merged cache of read states as a step system of server writes, polls and marks.
- **Stored items and the block index** (`BlockRules`, `FeedStore`, `ItemTables`, `BlockIndex`,
  `Resaving`): the tables, the save job, rule creation and background scans as interleaved
  transactions.
- **Transactions and the write queue** (`BusyErrors`, `Transactions`, `WriteQueue`): the search for
  busy errors in graphs of wrapped errors, retried transactions, and the batching loop.
- **Files** (`Csv`, `Opml`, and the rule import in `BlockRules`): the CSV state machine and outline
  trees, both with round trips.
- **Concurrent bookkeeping** (`Fetching`, `Import`, `ImportTables`, `ImportedFeeds`): claims on feeds by any number
  of goroutines, and the import of feeds.
- **Derived views** (`Views`): the memoised item list and the unread counts.

`Wrappers`, `Sets` and `Text` hold general definitions and facts.

Code that updates variables or fields is written as methods and classes and proved against
specification functions; concurrent protocols are state machines whose theorems range over every run.

## What the proofs found

- The cap of 500 iterations is exactly enough for 500 (window, weekday) pairs: with 501 the loop can
  stop inside a window (`IgnoreWindow.CapThreshold`).
- Go trims U+0085 from a time, JavaScript does not: a window stored with such a time is active for
  the fetcher and never active in the browser (`WindowText.PredicatesAgree`, `WindowText.NextLineTwin`).
- The initial read anchor, five seconds behind the newest item, is right exactly when no poll of the
  item list in flight and no mark the user has already made is older than five seconds when the first
  list arrives (`ReadSync.OverlapIsExact`).
- A mark that lands while a poll of the read states has its answer but has not ended disappears from
  the cache until the next poll (`ReadSync.MarkDuringPollIsLost`, `ReadSync.NextPollRepairs`).
- An item that begins to fit a list's filters when it is older than the list's anchor, say because
  another client marks it unread, never appears in that list (`ItemList.LateIsMissed`).
- The CSV parser loses an empty row that stands between a carriage return and a line feed
  (`Csv.RoundTrip`, `Csv.LostRow`).
- A scan whose transaction stays busy leaves its matches out of the index until the items are saved
  again (`BlockIndex.NoMatchMissed`, `BlockIndex.DroppedMatchIsMissing`).
- A busy retry of rule creation leaves rows of the rolled-back attempt on the list of rules to scan
  for; the index stays right all the same (`BlockIndex.GivenOk`, `BlockIndex.NoMatchMissed`).

## Model

| member | source | states |
|---|---|---|
| WindowSweep.FurthestEnd | cmd/feed-reader/ignore_window.go:174-182 | one pass over the windows finds the greatest end among those active at the instant, and finds none exactly when none is active |
| WindowSweep.SkipsOnlyBlocked | cmd/feed-reader/ignore_window.go:170-193 | however often the loop moves on, every instant between its start and its result lies in some window |
| WindowSweep.RepeatedEnd | cmd/feed-reader/ignore_window.go:168-193 | if the loop ends twice at the same position of the week, the windows cover every instant there is |
| WindowSweep.NewEnd | cmd/feed-reader/ignore_window.go:168-193 | the pigeonhole step: unless everything is covered, each further move ends at a position of the week not ended at before, so the number of moves is bounded by the number of positions |
| WindowSweep.EarliestFreeInstant | cmd/feed-reader/ignore_window.go:159-196 | with as many moves as end positions, the loop returns the least instant from the start on that lies outside all windows, unless no instant is free |
| IgnoreWindow.ActiveRun | cmd/feed-reader/ignore_window.go:71-157 | an active window reports an end after the instant and is active with that same end at every instant up to it, also across midnight |
| IgnoreWindow.Weekly | cmd/feed-reader/ignore_window.go:71-157 | windows and the ends they report repeat every week, before and after 1970 |
| IgnoreWindow.OccurrenceStart | cmd/feed-reader/ignore_window.go:104-153 | the end an active window reports is that of an occurrence that began on one of its weekdays, today or yesterday |
| IgnoreWindow.ActiveExactlyWhenOpen | cmd/feed-reader/ignore_window.go:71-157 | a window is active, with a given end, if and only if an occurrence that opened at its start time on one of its weekdays, today or yesterday, lasts and has that end |
| IgnoreWindow.AdjustNextFetchForIgnoreWindows | cmd/feed-reader/ignore_window.go:162-196 | the nested loop, including its early exits, computes the at most 500-fold advance to the furthest end; the guard against an end not after the current instant never fires at fixed offsets |
| IgnoreWindow.AtMostOneEndPerDay | cmd/feed-reader/ignore_window.go:104-153 | all ends lie at no more positions of the week than there are (window, weekday) pairs |
| IgnoreWindow.SevenDaysEach | internal/httpapi/handler.go:871-885 | a window contributes at most seven pairs however its day list repeats days |
| IgnoreWindow.WindowsAreRegular | cmd/feed-reader/ignore_window.go:71-157 | every window meets what the loop relies on: it runs on until its end, repeats weekly and ends at a known position |
| IgnoreWindow.AdjustedIsEarliestFree | cmd/feed-reader/ignore_window.go:159-196 | with at most 500 (window, weekday) pairs the result is the earliest free instant, unless the windows cover the week |
| IgnoreWindow.SeventyOneWindows | cmd/feed-reader/ignore_window.go:159-196 | for up to 71 windows the result lies in a window if and only if the windows together cover every instant |
| IgnoreWindow.OnePairTooMany | cmd/feed-reader/ignore_window.go:168-193 | 501 one-minute windows on one weekday: the loop stops inside the last one although most of the week is free |
| IgnoreWindow.CapThreshold | cmd/feed-reader/ignore_window.go:168-193 | the promise that the result falls outside all windows holds for all inputs with at most n (window, weekday) pairs if and only if n is at most 500 |
| WindowText.ParseTimeOfDay | cmd/feed-reader/ignore_window.go:36-66 | what parses is an hour up to 23 with a minute up to 59, or 24:00 |
| WindowText.ParsesExactly | cmd/feed-reader/ignore_window.go:36-66 | a text reads as h:m if and only if it is white space around two integers with a colon between them, h and m in range |
| Text.AtoiOfDecimal | cmd/feed-reader/ignore_window.go:36-66 | a number is read back from its decimal digits, with or without a sign |
| WindowText.ParsedWindow | cmd/feed-reader/ignore_window.go:14-66 | the fetcher takes a stored window for one with hours if and only if both texts are times and its days are weekdays, at least one |
| WindowText.ParsedHours | cmd/feed-reader/ignore_window.go:71-102 | its start and end are counted in minutes from midnight, 24:00 as a start being midnight |
| WindowText.NormalizeAndValidateDaysOfWeek | internal/httpapi/handler.go:871-885 | accepts exactly the non-empty lists of days 0 to 6, and returns the same days in strictly increasing order |
| WindowText.StoredExactly | internal/httpapi/handler.go:574-720 | the windows that some sequence of one create and partial updates stores are exactly those whose times are in range, whose start is not 24:00, whose start and end differ unless both are 0:00, and which have a sorted list of days without repetition |
| WindowText.GoodTimesAre | internal/httpapi/handler.go:845-869 | a pair of times is accepted if and only if both texts read as times in range, the start is not 24:00, and they differ unless both are 0:00 |
| WindowText.CreateStores | internal/httpapi/handler.go:574-637 | a creation is accepted exactly for such times, a non-empty list of days 0 to 6 and a zone that loads; it stores the times as given and the same days in strictly increasing order |
| WindowText.UpdateRejects | internal/httpapi/handler.go:639-726 | an update is rejected exactly when the times it leads to, the days it gives or the zone it gives are not acceptable |
| WindowText.UpdateStores | internal/httpapi/handler.go:639-726 | each field an accepted update gives is stored, the days given in strictly increasing order, and each field it does not give stays |
| WindowText.UpdatesInTurn | internal/httpapi/handler.go:639-726 | updates apply one after another, and a rejected one changes nothing |
| WindowText.GoReadersAgree | internal/httpapi/handler.go:845-869 | the API's reading of a time and the fetcher's accept the same texts and mean the same minute |
| WindowText.TimeShape | cmd/feed-reader/ignore_window.go:36-66 | a text that reads as a time is white space around h:m, h and m being integers in range |
| WindowText.ReadsPadded | cmd/feed-reader/ignore_window.go:36-66 | conversely, every such text reads as that time |
| WindowText.JsReads | frontend/src/lib/ignore-window-db.ts:215-216 | JavaScript reads every time that Go reads alike, except that one padded with U+0085 gives it NaN |
| WindowText.MinuteTestAgrees | frontend/src/lib/ignore-window-db.ts:213-256 | for equal numbers the test on whole local minutes gives the same answer as the test on nanoseconds, at every instant |
| WindowText.BrowserMinutes | frontend/src/lib/ignore-window-db.ts:215-222 | for every stored window the browser computes the fetcher's start and end minutes, or NaN if a time carries U+0085 |
| WindowText.ActiveSometime | cmd/feed-reader/ignore_window.go:71-157 | every window the API can store is active at some instant |
| WindowText.PredicatesAgree | frontend/src/lib/ignore-window-db.ts:200-256 | for every window the API can store, the fetcher's and the browser's predicate agree at all instants if and only if neither time contains U+0085 |
| WindowText.NextLineTwin | internal/httpapi/handler.go:574-637 | every stored window has a stored twin, its start time padded with U+0085, that is the same window for the fetcher and never active for the browser |
| NextFetch.OrderIsIrrelevant | cmd/feed-reader/scheduler.go:58-89 | the adaptive interval depends only on the multiset of dates |
| NextFetch.IntervalIsMeanGap | cmd/feed-reader/scheduler.go:58-89 | with fewer than two dates it is the default; otherwise the mean of the gaps between the at most ten newest dates, whichever way those are chosen among equal ones, or the limit that it lies beyond |
| NextFetch.HourOfDayIs | cmd/feed-reader/scheduler.go:92-128 | the hour of the bucket is the one that has begun last since midnight |
| NextFetch.CountAtLast | cmd/feed-reader/scheduler.go:92-128 | of several buckets for the same hour the last one counts |
| NextFetch.CountAtNone | cmd/feed-reader/scheduler.go:92-128 | without a bucket for the hour there are no updates |
| Calendar.WeekdaysInTurn | cmd/feed-reader/ignore_window.go:71-157 | weekdays are numbered from Sunday, follow each other, and 1970-01-01 was a Thursday |
| NextFetch.AdjustIntervalForPeak | cmd/feed-reader/scheduler.go:92-128 | the interval is halved, down to the minimum, exactly when the bucket of the fetch time has at least two updates and at least half of those of every bucket |
| NextFetch.GetNextFetchInterval | cmd/feed-reader/fetcher_service.go:314-345 | the interval lies between 15 minutes and 24 hours and is the adaptive one over stored and new dates, halved at peaks, also when queries fail |
| NextFetch.MarkFetched | cmd/feed-reader/fetcher_service.go:347-368 | the stored time is the whole second of the interval's end, pushed past the windows if they can be read |
| NextFetch.BlockedAllSecond | cmd/feed-reader/fetcher_service.go:360 | cutting off fractions of a second does not move an instant into or out of a window |
| NextFetch.StoredTimeIsFree | cmd/feed-reader/fetcher_service.go:347-368 | the stored time is later than now and the whole second, itself outside all windows, of the earliest free instant after the interval |
| NextFetch.MovedIffBlocked | cmd/feed-reader/fetcher_service.go:167-180 | an instant is moved exactly when it lies in a window, which is how the pass decides to skip a feed |
| NextFetch.FetchAllFeeds | cmd/feed-reader/fetcher_service.go:147-204 | tasks and postponements are, in order, the due feeds outside and inside their windows |
| NextFetch.FetchedOnlyOutsideWindows | cmd/feed-reader/fetcher_service.go:159-180 | a feed is fetched if and only if its windows can be read and it is outside them |
| NextFetch.PostponedUntilFree | cmd/feed-reader/fetcher_service.go:167-180 | every postponement is of a feed inside its windows, to the whole second of the earliest instant from now on that lies outside them |
| NextFetch.PassInOrder | cmd/feed-reader/fetcher_service.go:147-204 | fetches and postponements come in the order of the feeds |
| NextFetch.FetchedOrPostponed | cmd/feed-reader/fetcher_service.go:159-201 | no feed is both fetched and postponed, and one whose windows can be read is one or the other |
| Paging.OrderByLists | store/query.sql.go:1817-1820 | ORDER BY lists exactly the selected rows, in strictly ascending key order |
| Paging.ListingUnique | store/query.sql.go:1817-1820 | there is only one such listing |
| Order.LessIs | store/query.sql.go:1817-1820 | texts are ordered by their first difference: the one that ends there, or has the smaller code point, comes first |
| Paging.RequestErrors | internal/httpapi/handler.go:216-310 | a request fails if and only if its page size is not between 1 and 1000, its token has no identifier, or it carries a token and a start time |
| Paging.PageStep | internal/httpapi/handler.go:279-304 | a page is the whole rest, or a full page whose token splits the rest into this page and the rows behind the token, and a usable token it is |
| Paging.FetchItems | frontend/src/lib/item-db.ts:123-142 | on a fixed table the loop returns exactly the matching rows, each once, timestamps ascending and identifiers ascending under each timestamp, in max(1, ceil(n / 1000)) requests |
| Paging.SinceIsInclusive | store/query.sql.go:1717-1746 | the start time, sent as the cursor (since, ''), selects the rows stamped at or after that second |
| Paging.FetchReads | frontend/src/lib/item-read-db.ts:27-59 | on one snapshot the loop returns exactly the rows since the anchor in that order, in max(1, ceil(n / 1000)) requests, although only the first request carries the start time |
| Paging.CollectedSorted | frontend/src/lib/item-db.ts:123-142 | whatever is written between the requests, the pages are in key order without repetition |
| Paging.StableRowListed | frontend/src/lib/item-db.ts:123-142 | a row that keeps matching is on some page, whatever is written between the requests |
| Paging.StableRowOnce | frontend/src/lib/item-db.ts:123-142 | and appears exactly once |
| ItemList.ItemCache.QueryFn | frontend/src/lib/item-db.ts:112-198 | one poll asks for what fits since the anchor, overrides the list by identifier, discards what was there when it is the first, and moves the anchor to the newest item received |
| ItemList.MergedRows | frontend/src/lib/item-db.ts:189-197 | setting the received items one by one overrides exactly those |
| ItemList.PollLists | frontend/src/lib/item-db.ts:112-198 | an item that fits is listed after a poll if and only if it is not older than the anchor or was listed before |
| ItemList.StepKeepsInv | frontend/src/lib/item-db.ts:112-198 | every change that is not late and every poll keep each fitting item listed or within reach of the next poll |
| ItemList.EveryPollListsAll | frontend/src/lib/item-db.ts:112-198 | over every run without late changes, each poll leaves every item that fits the filters in the list, although all polls but the first ask only for what is new |
| ItemList.NewItemIsListed | frontend/src/lib/item-db.ts:112-198 | a new item that fits is in the list after the next poll |
| ItemList.PollMovesAnchor | frontend/src/lib/item-db.ts:147-158 | a poll moves the anchor to the newest item it receives, so that nothing received is newer than the anchor |
| ItemList.LateIsMissed | frontend/src/lib/item-db.ts:117-121 | of an item that a change makes fit, the next poll takes notice if and only if it was listed before or is not older than the anchor |
| ItemList.LateChangeHappens | frontend/src/lib/item-db.ts:117-121 | a run that ends with such a change |
| ReadSync.ServerMarkKeepsInv | store/query.sql.go:2286-2299 | a mark by another client keeps every displayed flag, and every flag a poll in flight will leave behind, right or within reach of a later poll |
| ReadSync.LocalMarkKeepsInv | frontend/src/lib/item-read-db.ts:79-96 | so does a mark of the user's own, at any time: before there is an anchor, between polls or during one |
| ReadSync.ItemsPageKeepsInv | frontend/src/lib/item-db.ts:126-142 | so does a page of the item list, of any filter and whatever is written between pages |
| ReadSync.FirstItemsKeepInv | frontend/src/lib/item-db.ts:147-158 | the first list sets the anchor five seconds behind its newest item, which is not after the start of any poll in flight, nor after any mark still cached, that is at most five seconds old |
| ReadSync.StartReadsKeepsInv | frontend/src/lib/item-read-db.ts:19-25 | a poll begins with the anchor and the cache as they are, or ends at once and empties the cache |
| ReadSync.SnapshotMakesRight | frontend/src/lib/item-read-db.ts:31-59 | the rows since the anchor, as the requests see them, settle every flag the anchor leaves in doubt |
| ReadSync.SnapshotReadsKeepsInv | frontend/src/lib/item-read-db.ts:31-59 | the answer keeps the invariant |
| ReadSync.EndReadsKeepsInv | frontend/src/lib/item-read-db.ts:61-75 | so does the end of the poll, which puts the cache it began with, and the answer, in place of the present cache |
| ReadSync.QuietPollSyncs | frontend/src/lib/item-read-db.ts:61-75 | if nothing was marked since the answer, every listed item then shows the server's flag |
| ReadSync.UnmarkedIsQuiet | frontend/src/lib/item-read-db.ts:31-75 | and so it does whatever else happens between the answer and the end: only marks disturb a poll |
| ReadSync.StepKeepsInv | frontend/src/lib/item-read-db.ts:18-96 | every step of the server and of the browser keeps the invariant |
| ReadSync.NextPollRepairs | frontend/src/lib/item-read-db.ts:18-76 | after any run, also one in which polls have overwritten marks, an undisturbed poll leaves every listed item with the server's flag |
| ReadSync.LastMarkIsShown | frontend/src/lib/item-read-db.ts:18-96 | over every run: after a poll that nothing disturbs, every listed item shows the flag that anybody has given it last, or unread if nobody has |
| ReadSync.LocalMarkIsShown | frontend/src/lib/item-read-db.ts:79-96 | a mark of the user's own is on the server with the present second, and shown at once |
| ReadSync.FetchedIsListed | frontend/src/lib/item-db.ts:126-198 | the items of a page are listed when its poll ends, and items listed before stay unless the list starts over |
| ReadSync.LongPollReachable | frontend/src/lib/item-db.ts:126-158 | a run in which an item poll lasts six seconds and another client marks a fetched item meanwhile |
| ReadSync.OldMarkReachable | frontend/src/components/ItemDetailModal.tsx:459-460 | a run in which the user marks an item six seconds before the first list arrives, and another client undoes the mark in the same second |
| ReadSync.FirstListGoesWrong | frontend/src/lib/item-db.ts:154-158 | in both runs the first list sets the anchor past the mark, and the next poll leaves the item shown wrongly |
| ReadSync.OverlapIsExact | frontend/src/lib/item-read-db.ts:18-76 | over all runs, every listed item shows the server's flag right after each poll during which nothing was marked once its requests were answered, if and only if no item poll in flight and no mark still cached is older than five seconds when the first list sets the anchor |
| ReadSync.MarkDuringPollIsLost | frontend/src/lib/item-read-db.ts:67-75 | a reachable state in which the end of a poll has overwritten the user's mark in the cache, until the next poll brings it back |
| ReadCache.OrderByListsSince | store/query.sql.go:1717-1746 | the paged listing of the table is the rows since the anchor, each once |
| ReadCache.Newest | frontend/src/lib/item-read-db.ts:38-49 | the loop finds the greatest timestamp received |
| ReadCache.MergedIsRecent | frontend/src/lib/item-read-db.ts:67-75 | setting the new reads one by one is the old cache overridden by all rows since the anchor |
| ReadCache.FetchNewReads | frontend/src/lib/item-read-db.ts:27-59 | the requests of a poll return exactly the rows since its anchor, each once |
| ReadCache.ReadCache.StartPoll | frontend/src/lib/item-read-db.ts:19-25 | the poll takes the anchor and the cache as they are, as the step StartReads of ReadSync says |
| ReadCache.ReadCache.FinishPoll | frontend/src/lib/item-read-db.ts:61-75 | whatever the cache holds by then, anchor and cache become those that the step EndReads of ReadSync says |
| ReadCache.ReadCache.QueryFn | frontend/src/lib/item-read-db.ts:18-76 | a poll during which nothing else happens is its beginning, its requests and its end |
| ReadCache.ReadCache.UpdateItemReadStatus | frontend/src/lib/item-read-db.ts:79-118 | a mark overrides the cache for the given items, and a refused one leaves the cache as it was |
| BusyErrors.IsBusyWalk | store/retry.go:26-51 | the search ends on every finite graph, cycles included; what it returns true for wraps a busy error, and when it returns false everything newly visited is free of busy codes and leads only to visited errors |
| BusyErrors.ExploredHasNoBusy | store/retry.go:26-51 | nothing outside a set closed under unwrapping can be reached from inside |
| BusyErrors.IsBusyError | store/retry.go:21-51 | true if and only if an error with code 5 or 6 can be reached by unwrapping |
| Transactions.DelayIsCappedDoubling | store/retry.go:83-105 | the wait after attempt k is min(10 * 2^k, 100) milliseconds |
| Transactions.NineWaits | store/retry.go:83-105 | nine waits take 650 milliseconds |
| Transactions.Store.Attempt | store/feed_store.go:183-199 | one transaction: there is a sequence of contents, from the one it began with, in which each job in turn turns one into the next; it is written in full or nothing is, and the error reported is that of the first job that failed, or of the commit |
| Transactions.Store.WithTransaction | store/feed_store.go:183-199 | whatever busy and other errors the attempts meet and whatever others commit in between: when it succeeds, every job has been applied exactly once, in order, from the content the last attempt found to the new content; otherwise nothing is written; at most ten attempts and 650 milliseconds of waiting, and the outcome is that of the last attempt |
| Transactions.EndsOnce | store/retry.go:83-113 | the errors of the attempts and the caller's patience determine the number of attempts and the outcome |
| WriteQueue.StepConserves | cmd/feed-reader/write_queue.go:43-83 | every event keeps flushed batches, batch and channel together equal to the jobs submitted, in order |
| WriteQueue.StepBounded | cmd/feed-reader/write_queue.go:53-83 | every event keeps the batch below the maximum, the channel within its capacity and each flush between one job and the maximum |
| WriteQueue.FlushedWhenDue | cmd/feed-reader/write_queue.go:53-83 | a batch is flushed when it reaches the maximum, at a tick and at the end, and only then |
| WriteQueue.NothingLost | cmd/feed-reader/write_queue.go:43-83 | in every reachable state, for a maximum of at least one, nothing accepted is lost, repeated or reordered and no flush is empty or too large |
| WriteQueue.StopDrains | cmd/feed-reader/write_queue.go:48-83 | once stopped, the loop ends exactly with its receive number (length of the channel) + 1, and everything accepted has then been flushed |
| WriteQueue.WriteQueueService.Submit | cmd/feed-reader/write_queue.go:43-45 | adds the job at the end of the channel |
| WriteQueue.WriteQueueService.Stop | cmd/feed-reader/write_queue.go:48-50 | closes the channel |
| WriteQueue.WriteQueueService.Flush | cmd/feed-reader/write_queue.go:85-108 | runs the jobs of the batch, each once and in order, in one transaction, all or nothing, and drops it; an empty batch is not attempted |
| WriteQueue.WriteQueueService.Receive | cmd/feed-reader/write_queue.go:65-76 | one turn of the loop on the channel, including the last one |
| WriteQueue.WriteQueueService.Tick | cmd/feed-reader/write_queue.go:77-81 | one turn of the loop on the ticker |
| BlockRules.ExtractDescribes | internal/httpapi/url_parser.go:30-59 | what is cut out of the host or path by position is exactly the user and domain that the rule's pattern describes |
| BlockRules.FirstMatchIsFirst | internal/httpapi/url_parser.go:20-62 | the first rule that finds a user decides, and none is found only when no rule finds one |
| BlockRules.AuthorIs | internal/httpapi/url_parser.go:20-62 | a URL is attributed to an author if and only if some rule describes its host and path with that author and no earlier rule describes them with anybody |
| BlockRules.MatchesByKind | store/item_block_rules.go:87-121 | which items a rule of each kind blocks, from the URL, its author, title and content alone: the user; the user at that domain; the author's domain, the host or a domain above it; a keyword that title or content has anywhere, in any case; no other kind blocks anything |
| BlockRules.ParseBlockRules | frontend/src/lib/csv-parser.ts:78-124 | the loop yields one rule for each row that is not blank, in order |
| BlockRules.ParsedRulesAppend | frontend/src/lib/csv-parser.ts:78-124 | rows are read one by one, in order |
| BlockRules.ParsedColumns | frontend/src/lib/csv-parser.ts:93-120 | a row of blank columns is left out; any other gives its trimmed type, value and domain, the value standing in for the missing domain of a domain rule |
| BlockRules.BrowserAndServerAgree | frontend/src/lib/csv-parser.ts:93-120 | a row is called valid exactly when it has no stray columns and the server would accept the rule, and shows the domain the server stores |
| BlockRules.ServerRules | internal/httpapi/handler.go:1230-1262 | of the rules sent to it the server accepts those of the four types with a value and, for a user at a domain, a domain; it stores the domain sent, or else the value of a domain rule |
| FeedStore.SaveItem | cmd/feed-reader/write_queue.go:144-238 | one item of a job: validated, upserted by cleaned URL, linked, given a read row and checked against all rules, or the first error |
| FeedStore.SaveItems | cmd/feed-reader/write_queue.go:122-244 | a job is its items one after another, each saved on the tables that the one before left, with the rules read once, up to the first error |
| FeedStore.AddBlocks | cmd/feed-reader/write_queue.go:219-235 | the loop adds exactly the blocks of the rules that block the item, by the meaning of each kind of rule |
| FeedStore.CreateItemBlockRules | store/item_block_rules.go:14-41 | the loop computes table and list, or the error, of its specification |
| FeedStore.CreatedRules | store/item_block_rules.go:14-41 | the table is extended and keeps each type, value and domain once, and the list names the table's row with the type, value and domain of each rule given |
| FeedStore.NewRulesAreCreated | store/item_block_rules.go:14-41 | rules with new and different identifiers are always created |
| FeedStore.ExtractAll | internal/httpapi/handler.go:1283-1288 | the map from URL to author answers like the extraction itself for every item of the scan |
| FeedStore.PopulateItemBlocksForRule | store/item_block_rules.go:123-144 | one rule's transaction, with the map in place of the extraction: adds exactly the blocks of the items that the rule blocks, by the meaning of its kind, up to the first constraint that fails |
| ItemTables.SaveOneShape | store/query.sql.go:388-413 | saving one item changes its own row, one link, at most one read row and its blocks, keeps identifier, creation time and first publication time of an existing row, and nothing else |
| ItemTables.SaveOneFails | cmd/feed-reader/write_queue.go:144-238 | saving fails exactly for a publication time that is none, an identifier that is taken or a feed that does not exist |
| ItemTables.SaveOneReads | cmd/feed-reader/write_queue.go:188-200 | the saved item has a read row afterwards, unread if it is new, and no other read row changes |
| ItemTables.SaveOneTables | store/query.sql.go:298-309 | saving keeps one item for each URL and identifier, exactly one read row for each item and a feed for every item |
| ItemTables.SaveKeeps | cmd/feed-reader/write_queue.go:144-238 | over a whole job nothing disappears, identities stay and no read flag changes |
| ItemTables.SaveStoresAll | cmd/feed-reader/write_queue.go:144-238 | after a job that succeeds, every one of its items is stored and linked to its feed, and the last version for a URL is the one stored |
| ItemTables.SetReadsKeeps | internal/httpapi/handler.go:1180-1197 | marking sets exactly the rows of the items named, to the flag and the time of the request, fails as a whole for an unknown item, and keeps the tables consistent and all identities |
| BlockIndex.SaveIndexes | cmd/feed-reader/write_queue.go:219-235 | after a job every item is as before or indexed for every rule it matches |
| BlockIndex.SaveJustifies | cmd/feed-reader/write_queue.go:219-235 | and every new block stems from a match of a version the job stored |
| BlockIndex.GivenOk | store/item_block_rules.go:14-41 | a rule that a rolled-back attempt has listed is in the table in the end, or its identifier never is |
| BlockIndex.SaveKeepsInv | cmd/feed-reader/write_queue.go:122-244 | a save job keeps the index invariant at any point of any scans |
| BlockIndex.AddRulesKeepsInv | internal/httpapi/handler.go:1230-1268 | adding rules keeps it: what matches is owed by the new scan |
| BlockIndex.LoadKeepsInv | internal/httpapi/handler.go:1278-1282 | reading the items keeps it |
| FeedStore.Populates | store/item_block_rules.go:123-144 | a rule's transaction adds exactly the blocks among the items read, and fails only when the rule or an item is missing |
| BlockIndex.PopulateKeepsInv | internal/httpapi/handler.go:1290-1294 | populating one rule keeps it: what the scan owed for the rule is indexed now |
| BlockIndex.StepKeepsInv | internal/httpapi/handler.go:1230-1295 | every step keeps the invariant that each matching pair is indexed, owed by a scan or given up by one, and each indexed pair matched in some version |
| BlockIndex.AbandonKeepsInv | internal/httpapi/handler.go:1278-1282 | so does a scan that cannot read the items, whose rules are given up for the items of that moment |
| BlockIndex.DropKeepsInv | internal/httpapi/handler.go:1290-1294 | so does a rule whose transaction does not commit, which is given up for the items the scan read |
| BlockIndex.NoMatchMissed | internal/httpapi/handler.go:1230-1295 | under every interleaving of saves, added rules, scans that succeed or fail, marks and new feeds: once all scans are through, an item is indexed under every rule that blocks it, by the meaning of each kind of rule, unless a scan gave up on that rule for that version of the item; and at all times only under rules that blocked some stored version |
| BlockIndex.EachKindIndexed | store/item_block_rules.go:87-121 | kind by kind: once all scans are through, every item by a rule's user, by its user at its domain, by an author of its domain, on its host or below, or with its keyword is indexed under it, unless given up |
| BlockIndex.SuccessfulScansIndexAll | internal/httpapi/handler.go:1230-1295 | if every scan reads its items and commits, every item is indexed in the end under every rule that blocks it |
| BlockIndex.DroppedMatchIsMissing | internal/httpapi/handler.go:1290-1294 | a run in which a scan gives up on a rule and its match stays out of the index |
| BlockIndex.ScansCanFinish | internal/httpapi/handler.go:1270-1295 | from every state the pending scans alone can be carried to their end without giving up on anything more |
| Resaving.StepKeepsFlags | store/query.sql.go:388-413 | no step removes anything or changes an identity, and only a mark that takes effect changes a read flag |
| Resaving.ResavingKeeps | cmd/feed-reader/write_queue.go:144-238 | over every run: one item for each URL with one read row and a feed, identifier, creation time and first publication time unchanged, and the read flag is that of the last mark |
| Resaving.ResavingFromStart | cmd/feed-reader/write_queue.go:144-238 | in particular from an empty database, where an item is read exactly when it has been marked and its last mark says read |
| Csv.ParseRows | frontend/src/lib/csv-parser.ts:24-76 | the character loop with its lookahead computes the rows of its specification |
| Csv.ScanQuoted | frontend/src/lib/csv-parser.ts:44-52 | a quoted field with doubled quotes is read as its text, whatever it contains |
| Csv.ReadInQuotes | frontend/src/lib/csv-parser.ts:44-52 | for every input: what follows an opened quote is read as a text with its quotes doubled, up to the quote that closes it or, without one, to the end of the input |
| Csv.QuoteOpens | frontend/src/lib/csv-parser.ts:44-52 | a quote opens quotes wherever it stands in a field |
| Csv.ScanRows | frontend/src/lib/csv-parser.ts:24-76 | printed rows are read back, except those swallowed between a carriage return and a line feed |
| Csv.RoundTrip | frontend/src/lib/csv-parser.ts:18-76 | parsing printed rows gives them back if and only if no carriage return is followed by an unquoted empty row and a line feed; otherwise just those rows are missing |
| Csv.UniformBreaks | frontend/src/lib/csv-parser.ts:18-76 | with one kind of break throughout, nothing is lost (section 2 of RFC 4180) |
| Csv.LostRow | frontend/src/lib/csv-parser.ts:56-63 | three rows of which two are read back |
| Opml.ListTags | cmd/feed-reader/opml.go:85-89 | collecting the keys of the tag set in any order and sorting them gives the strictly ascending listing |
| Opml.ListingIsUnique | cmd/feed-reader/opml.go:85-89 | of which there is only one, so the order of map iteration does not show |
| Opml.Collect | cmd/feed-reader/opml.go:67-83 | the loop collects the trimmed texts that are not empty |
| Opml.Extraction.Extract | cmd/feed-reader/opml.go:54-108 | the recursive closure appends the feeds below a list of outlines to what was there |
| Opml.ParseOutlines | cmd/feed-reader/opml.go:54-110 | the feeds of a document and their sorted tags |
| Opml.ExtractedInDocumentOrder | cmd/feed-reader/opml.go:54-110 | the recursion yields the outlines with an address in document order, each tagged with the trimmed non-empty names of all folders it lies in and its categories |
| Opml.EntryOf | cmd/feed-reader/opml.go:54-108 | an outline without an address contributes nothing; one with an address gives one feed under its title, or its text if it has no title, tagged by the trimmed names of its folders and the trimmed parts of its category |
| Opml.ChainsReachAll | cmd/feed-reader/opml.go:54-110 | every outline is reached, however deep it lies |
| Opml.ExportOutlines | cmd/feed-reader/opml.go:114-137 | each outline has its feed's title as title and text, its addresses, its tags separated by commas and its type, by default rss |
| Opml.TagsComeBack | cmd/feed-reader/opml.go:74-83 | a feed's tags come back from the joined category if and only if each is trimmed, not empty and free of commas |
| Opml.RoundTrip | cmd/feed-reader/opml.go:48-152 | exporting and parsing gives back all titles, addresses and tags in order if and only if every feed has an address and every tag is clean |
| Fetching.StepKeepsExclusive | cmd/feed-reader/fetcher_service.go:232-247 | every step keeps the map of feeds in progress equal to the feeds that a goroutine holds, each held once |
| Fetching.AnswerKeepsCalls | cmd/feed-reader/fetcher_service.go:70-89 | answering fills the goroutine's own position and no other |
| Fetching.StepKeepsInv | cmd/feed-reader/fetcher_service.go:58-92 | every step keeps claims exclusive and every call's positions with their own goroutines |
| Fetching.OneFetchPerFeed | cmd/feed-reader/fetcher_service.go:232-247 | under every interleaving of any number of background and synchronous fetches, at most one goroutine fetches a feed, and it is marked exactly while one does |
| Fetching.ClaimNeedsFreeFeed | cmd/feed-reader/fetcher_service.go:232-247 | in every reachable state a goroutine that starts gets its feed if and only if nobody holds it |
| Fetching.CallReturnsAll | cmd/feed-reader/fetcher_service.go:58-92 | a synchronous call returns one result for each listed feed, at the feed's own index |
| Fetching.ResultsTell | cmd/feed-reader/fetcher_service.go:58-92 | under every interleaving, the result for a feed is a success if and only if the call's own goroutine claimed it and finished its fetch successfully |
| Fetching.WritesOnce | cmd/feed-reader/fetcher_service.go:70-89 | no result is written twice |
| Import.StepCounts | cmd/feed-reader/opml_importer.go:59-104 | every step keeps the counters equal to the number of entries so classified |
| Import.StepOwners | cmd/feed-reader/opml_importer.go:59-64 | every step keeps each URL owned by exactly one entry |
| Import.ImportAddsUp | cmd/feed-reader/opml_importer.go:42-112 | under every interleaving a completed classification has total = success + skipped + failed + repeated, decides each distinct URL by exactly one entry, and creates feeds with distinct URLs |
| Import.ClassifiedByComparison | cmd/feed-reader/opml_importer.go:51-57 | over every run, a skipped entry's feed is known, the feed of an entry that is to be fetched, or was, was not known at the start, and known are the feeds of the start and those that others added |
| Import.SkippedExactlyKnown | cmd/feed-reader/opml_importer.go:51-57 | if nobody else adds feeds, an entry that decides its URL without an error is skipped if and only if the feed was known at the start |
| Import.RunTells | cmd/feed-reader/opml_importer.go:51-104 | an entry ends as fetched exactly if its fetch succeeded, as failed exactly if its check or its fetch failed, and as skipped or repeated only by its check or its claim |
| ImportTables.HandleTags | cmd/feed-reader/opml_importer.go:118-148 | the tag table gains a row for each name it lacks, and the map knows the identifier of every name |
| ImportTables.CreateFeeds | cmd/feed-reader/opml_importer.go:152-176 | fails if and only if a URL exists by now, and otherwise adds each feed |
| ImportTables.Associate | cmd/feed-reader/opml_importer.go:178-195 | associates each feed with each tag its entry names, once |
| ImportTables.Import | cmd/feed-reader/opml_importer.go:116-189 | the whole transaction: fails if and only if a URL exists by now, and otherwise yields the three tables |
| ImportTables.FeedsImported | cmd/feed-reader/opml_importer.go:152-176 | each created feed is in the table with its identifier and title, and other feeds are untouched |
| ImportTables.TagsImported | cmd/feed-reader/opml_importer.go:118-189 | there is one tag row for each name, old ones unchanged, and a created feed carries exactly the tags its entry names |
| ImportedFeeds.WinsAreImported | cmd/feed-reader/opml_importer.go:106-189 | what the workers classified as fetched becomes the tables: each such entry's feed under its URL with its title and exactly the tags it names, new tags only for names in those entries, and nothing else changed |
| ImportedFeeds.FinishImport | cmd/feed-reader/opml_importer.go:106-198 | from end to end, after every interleaving of the workers: only entries of known feeds are skipped, and only ones not known at the start are fetched; the import fails and writes nothing if and only if the URL of a fetched entry exists by now; otherwise every fetched entry is created with its title or else the fetched one and exactly its tags, other feeds are untouched, and total = success + skipped + failed + repeated |
| Views.SortIsStable | frontend/src/lib/queries/item-queries.ts:31-41 | the sorted list is ordered by publication and creation, a permutation, and keeps the order of items that compare equal |
| Views.ViewOrder | frontend/src/lib/queries/item-queries.ts:31-41 | in the list shown publication times ascend, undated items come after all whose time is below 2^53 - 1, and under equal times creation times ascend, a missing one counting as zero |
| Views.ViewMembers | frontend/src/lib/queries/item-queries.ts:45-76 | exactly those items are shown that are unread if only those are asked for, whose feed carries the tag asked for and which have the identifier asked for, each with its last read flag and as often as it is listed |
| Views.MergedItems.Sorted | frontend/src/lib/queries/item-queries.ts:29-43 | the cached order is the order computed afresh |
| Views.MergedItems.Merge | frontend/src/lib/queries/item-queries.ts:45-59 | the cached merge is the merge computed afresh, the last read entry of an item winning |
| Views.FilterTwice | frontend/src/lib/queries/item-queries.ts:61-76 | filtering by one option after another is filtering by all at once |
| Views.MergedItems.GetItemsWithReadState | frontend/src/lib/queries/item-queries.ts:23-79 | whatever calls came before, the result is the view without caches: exactly the items asked for, each with its last read flag, in ascending order of publication and creation |
| Views.GetTagUnreadCounts | frontend/src/lib/queries/item-queries.ts:87-114 | the loops accumulate, for each tag, the unread items of its associated feeds; without a repeated association that is the number of unread items whose feed carries the tag |
| Views.TagCountsAreExact | frontend/src/lib/queries/item-queries.ts:87-114 | a tag's count is the number of unread items whose feed carries it, whatever is unread, if and only if no association of the tag is listed twice |

## Left out

- Daylight-saving zones: offsets are fixed. With ambiguous local times an end may not lie after the current instant, which is why the loop has a guard for it.
- Zone names: a window carries the offset of its zone; a zone that does not load counts as UTC on both sides. Every window has a name, which nothing here depends on.
- NextFetch.FetchAllFeeds: one `now` stands for the clock readings of the pass, of which each decision uses only its own.
- NextFetch.GetNextFetchInterval: takes the same `now` as the caller for the peak test, which the code reads again a moment later.
- ReadCache.FetchNewReads: sees one snapshot for all pages of a poll. With writes between pages the claim fails: a row updated behind the cursor in the cursor's own second can be skipped for good.
- ItemList.ItemCache.QueryFn: sees one snapshot likewise. An item created between pages in the cursor's own second, with a smaller identifier, can be skipped, and for good if a later page moves the anchor on.
- ReadSync.OverlapIsExact: does not cover a mark whose effects on cache and server are apart or that the server refuses while a poll is in flight, eviction from the query cache, a reset of the anchor, and a poll that an invalidation cancels: the query library discards its result, but its function runs on and may still move the anchor. A read row whose time does not parse takes the anchor's time; server times always parse.
- The contents of page tokens, sizes and messages of errors, and the page size of 100 that requests without one get.
- BlockIndex.NoMatchMissed: does not cover changes of URL rules and deletions of rules, feeds and items, because the code then rescans nothing.
- ImportedFeeds.FinishImport: takes the UUIDs of feeds and tags to be new, as BlockIndex takes those of rules. In FeedStore an identifier that is taken fails like a constraint.
- The result channel of a save job. A result is sent before the commit and counts every saved item, so a reported success does not imply a commit.
- `store.SaveFetchedItem`, which only tests call.
- WriteQueue.NothingLost: does not cover a maximum batch size below one, and submitting or stopping after the channel is closed, which panics.
- Errors that cannot be map keys, and the reflection that finds an error's code: `BusyErrors` numbers errors and gives each its code.
- XML, JSON, base64, URL parsing and cleaning, lower-casing, RFC 3339 text, time zone names and HTTP: given functions, or not modelled.
- Integers outside 64 bits in time texts, and JavaScript's other numerals (hexadecimal, exponents, fractions), which no stored time contains.
- UTF-16: a character is a code point. The CSV parser compares only with ASCII characters and copies the rest.
- The HTML address and the type of exported feeds, which parsing ignores.
- Goroutines, requests and page components as objects: `Fetching`, `Import`, `BlockIndex`, `ItemList` and `ReadSync` are step systems on values, and a transaction maps one value of the tables to another.
- Concurrency inside SQLite: each transaction is atomic, and what others commit comes before an attempt.
- A worker of an import that fails to draw an identifier, which abandons the import.
- The worker pool, jitter and the ticking of the scheduler, which would add only easy members.
- Foreign-key recovery, migrations, the server's remaining handlers, and the user interface.
