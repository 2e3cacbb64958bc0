# Windowed Reddit sentiment collector — Dafny model

This project models the core of `Avg_Data.py`, a script that collects the
posts of one subreddit over a window of days, keeps them in a CSV file
deduplicated on the (Title, Text) pair, and computes the mean sentiment per
day. Three pieces of that script carry real logic, and each is modelled in
its own form:

- **Windowed collector** (`get_reddit_posts_for_date`). This is imperative. It
  walks the feed newest first. It stops at the first post dated before the
  window and skips posts dated after it. It saves everything collected so far
  each time the count reaches a multiple of `batch_size`, and once more at the
  end. Modelled as the method `Collector.Collect`, with a loop over the feed
  and a CSV-file object that it updates. The method is proved against pure
  specification functions (`Collected`, `MidFlushes`, `Replay`).
- **CSV store** (`save_posts_to_csv`, `load_posts_from_csv`). The file is a
  class `Store.CsvFile` with fields `present` and `rows`. Saving onto an
  existing file replaces its rows with the keep-last deduplication of
  existing ++ batch. Saving onto an absent file writes the batch unchanged.
  Keep-last deduplication (`Dedup.KeepLast`, `Dedup.Merge`) is a pure recursive
  function. It is proved equal to an index-by-index reading of pandas'
  `keep='last'` rule (`Dedup.Survivors`).
- **Daily aggregation** (`analyze_daily_sentiment`). This is pure. A post's
  overall score is (score(Title) + score(Text)) / 2. The table is grouped by
  date, and each date gets the mean of its posts' overall scores. The scorer
  (VADER's compound score) is a parameter `score: string -> real`.

The driver `main` is `Pipeline.Run`. It loads the stored rows, collects the
last 50 days with batch size 100, and merges only when something was
collected. It then aggregates the merged table and saves it.

Dates are integer day numbers. The feed is a `seq<Post>` given newest first.
The current date is a parameter of `Run`. Real arithmetic stands in for
floating point.

Three points of the code that the model follows:
- `analyze_daily_sentiment` adds three score columns to the frame that
  `main` then saves, so they end up in the CSV. Rows here carry only Title,
  Text and Date (see Left out).
- The first save onto an absent file writes the batch as given, duplicates
  included. Only a save onto an existing file deduplicates. `Store.SaveTo`
  and `Collector.Replay` model that. In the model, the file has no two rows
  with the same (Title, Text) once a save has hit an existing file, and
  always after `Pipeline.Run`. The CSV round trip can break this in the
  real program (see Left out).
- The save schedule fails only for a batch size of 0, because `%` by zero
  raises. `Collect` requires `batchSize != 0`, and the schedule is stated
  with `%` alone, so it also covers negative sizes.

## Model

| member | source | states |
|---|---|---|
| `Dedup.KeepLast` | Avg_Data.py:117 | deduplication never adds rows: the result is no longer than the input and every kept row is an input row |
| `Dedup.KeepLastIsIndexFilter` | Avg_Data.py:117 | keep-last keeps row i exactly when no later row has the same (Title, Text), and keeps the survivors in table order (pandas `keep='last'`) |
| `Dedup.KeepLastKeys` | Avg_Data.py:117 | the deduplicated table has exactly the identities of the input: none lost, none invented |
| `Dedup.KeepLastUnique` | Avg_Data.py:117 | after deduplication no two rows share a (Title, Text) pair |
| `Dedup.KeepLastSubsequence` | Avg_Data.py:117 | the surviving rows are a subsequence of the input, in their original relative order |
| `Dedup.LastOccurrenceWins` | Avg_Data.py:117 | the last row of an identity survives and is the only surviving row with that identity |
| `Dedup.KeepLastOfUnique` | Avg_Data.py:117 | a table already free of duplicate identities is returned unchanged |
| `Dedup.KeepLastIdempotent` | Avg_Data.py:117 | deduplicating twice equals deduplicating once |
| `Dedup.KeepLastCount` | Avg_Data.py:117 | the deduplicated table has one row per distinct identity of the input |
| `Dedup.Merge` | Avg_Data.py:117 | concat-then-dedup yields unique identities, exactly the union of both tables' identities, as a subsequence of existing ++ incoming |
| `Dedup.IncomingWins` | Avg_Data.py:117 | on an identity collision the incoming row replaces the stored one: the last incoming row of an identity is the only survivor with it |
| `Dedup.MergeNothing` | Avg_Data.py:114-118 | merging an empty batch into a deduplicated table leaves it unchanged |
| `Dedup.MergeReplacesOne` | Avg_Data.py:117 | merging one post whose identity is stored keeps the table size, contains the new post, and drops the old copy |
| `Store.SaveTo` | Avg_Data.py:114-118 | a save leaves the file present; on an existing file the rows have unique identities, the union of old and batch identities, as a subsequence of old ++ batch; on an absent file the rows are the batch exactly, duplicates included |
| `Store.SaveNothingIdempotent` | Avg_Data.py:114-118 | re-saving a deduplicated file with an empty batch leaves it unchanged |
| `Store.SaveIncomingWins` | Avg_Data.py:117 | after a save onto an existing file, a batch row that is last of its identity in the batch is the only row with that identity |
| `Store.CsvFile.Save` | Avg_Data.py:106-119 | the file's new state is the save of the batch onto its old state |
| `Store.CsvFile.Load` | Avg_Data.py:122-134 | returns the stored rows when the file exists and an empty table when it does not |
| `Collector.StopIndex` | Avg_Data.py:43-46 | the break index: every post before it is dated on or after the start day, and the post at it (if any) is dated before it |
| `Collector.WindowFilter` | Avg_Data.py:47-48 | every kept post lies in [start, end] |
| `Collector.WindowFilterSubsequence` | Avg_Data.py:47-48 | the window filter only deletes posts: the kept posts are a subsequence of the input, in input order |
| `Collector.Collected` | Avg_Data.py:43-48 | every collected post lies in [start, end], and the result is a subsequence of the feed in feed order |
| `Collector.MidFlushesSchedule` | Avg_Data.py:50-54 | saves inside the loop happen exactly when the collected count is a positive multiple of batch_size, in increasing order, each saving the whole collected prefix, and no such multiple is skipped |
| `Collector.Replay` | Avg_Data.py:114-118 | after a sequence of saves the file is present iff it was or some save happened |
| `Collector.ReplayKeeps` | Avg_Data.py:114-118 | after a sequence of saves the file keeps every identity it held before and every identity of every saved batch |
| `Collector.ReplayDeduplicates` | Avg_Data.py:114-118 | after a sequence of saves the file is deduplicated once some save hit an existing file; a single save onto an absent file leaves that batch exactly as written |
| `Collector.Collect` | Avg_Data.py:24-66 | returns exactly `Collected(feed, start, end)`, makes exactly the saves in `FlushLog` in order, and leaves the file as their replay on its old state |
| `Collector.CollectedCons` | Avg_Data.py:43-48 | step-by-step: a post older than the window ends collection, an in-window post is kept, and a post newer than the window is skipped without ending it |
| `Collector.CollectedIgnoresAfterStop` | Avg_Data.py:45-46 | once a post older than the window is met, nothing after it in the feed is collected, whatever its date |
| `Collector.NewestFirstCollectsWholeWindow` | Avg_Data.py:43-48 | on a newest-first feed the result equals the feed filtered to the window: the early stop loses nothing |
| `Collector.FlushSchedule` | Avg_Data.py:50-63 | every save holds a non-empty prefix of the result; after the mid-loop saves comes exactly one more, final save of the whole result iff the result is non-empty, even when the last mid-loop save already held all of it; every positive multiple of batch_size up to the result's length is saved mid-loop |
| `Collector.FirstBatchDurable` | Avg_Data.py:51-54 | a run interrupted after the first full batch has already put that batch's identities into the file |
| `Collector.CollectionPersists` | Avg_Data.py:62-63 | after a complete collection the file holds every collected identity and every identity it held before, and exists iff it existed or something was collected |
| `Aggregate.CountOn` | Avg_Data.py:102 | a date's post count is positive exactly when some post has that date |
| `Aggregate.DistinctDates` | Avg_Data.py:102 | the group keys: strictly ascending, and exactly the dates that occur |
| `Aggregate.DailyAverage` | Avg_Data.py:84-103 | one row per date that occurs (no zero-fill), in ascending date order; each row's mean, added once per post of that date, gives the sum of that date's (score(Title) + score(Text)) / 2 |
| `Aggregate.DailyMeanWithinScoreBounds` | Avg_Data.py:95-102 | if every title and text score lies in [lo, hi], so does every daily mean |
| `Aggregate.SumOnPermutation` | Avg_Data.py:99-102 | a date's sum and count of overall scores depend only on the multiset of posts |
| `Aggregate.DailyAverageOrderIndependent` | Avg_Data.py:102 | the daily table does not depend on the order of the rows |
| `Aggregate.OppositePostsCancel` | Avg_Data.py:99-102 | two same-day posts scored (1, 1) and (-1, -1) give that day, the only row, a mean of 0 |
| `Pipeline.MergeCollected` | Avg_Data.py:170-171 | when nothing was collected the table is empty, not the stored rows; otherwise it has unique identities, the union of stored and collected identities, as a subsequence of stored ++ collected |
| `Pipeline.Run` | Avg_Data.py:153-177 | the daily table is the aggregate of the merged table; the file is the final save of the merged table on top of the collector's saves; afterwards the file exists, has unique identities, and holds every collected and every previously stored identity; nothing collected gives an empty daily table |
| `Pipeline.RunKeepsNewestCopy` | Avg_Data.py:164-177 | last write wins over the whole run: a collected post that is last of its identity among the collected posts is the only row with that identity in the final file |

## Left out

- The Reddit client and feed fetching (`initialize_reddit_client`, `subreddit.new`) are network I/O. The feed is a given sequence of posts, newest first.
- `datetime.fromtimestamp(...).date()` is host-timezone dependent. Posts carry an integer day number directly.
- `time.sleep` pacing after each post and after each batch only delays. It has no effect on state and is not modelled.
- `print` progress messages are not modelled.
- VADER's `analyze_sentiment` is a foreign scorer. It is the parameter `score: string -> real`. The [-1, 1] range is a hypothesis of `Aggregate.DailyMeanWithinScoreBounds`, not a fact of the model.
- Floating-point summation and rounding: means use exact real arithmetic.
- CSV serialisation through pandas is not modelled: the file is its list of rows plus an existence flag. In the real program the round trip changes values, and that breaks two of the model's guarantees.
  - An empty Text is read back as NaN, while a freshly collected copy of the same post carries `''`. `drop_duplicates` then keeps both rows, so the stored table can hold two rows with the same (Title, Text). The uniqueness that `Store.SaveTo`, `Pipeline.MergeCollected` and `Pipeline.Run` promise holds only for posts with non-empty Text.
  - A stored Date is read back as a string, while collected dates are date objects. The group-by can then give one day two rows. The one-row-per-date property of `Aggregate.DailyAverage` holds only when all dates have one type.
- The columns Sentiment_Title, Sentiment_Text and Overall_Sentiment are written into the saved CSV by `main`, because `analyze_daily_sentiment` adds them to the frame in place. They are not modelled. Rows carry only Title, Text and Date, so deduplication is unaffected.
- An exception from the feed in the middle of the loop is not modelled as a control path. Its effect on the file (only saves already made persist) is captured by `Collector.MidFlushes`, `Collector.Replay` and `Collector.FirstBatchDurable` on the prefix collected so far.
- Plotting (`plot_sentiment`) is UI output. `Pipeline.Run` returns the daily table it would plot.
- Raw_Data.py is not part of this model. It fetches a capped list and adds per-row score columns, with no windowing, merging or grouping.
- Concurrent runs on the same file are not modelled. The script is single-threaded.
