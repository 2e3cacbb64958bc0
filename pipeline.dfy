/** The driver `main`: load the stored posts, collect the last WindowDays days
    of the feed, merge the new posts into the stored ones, compute the daily
    sentiment of the merged table and save that table. The current date, the
    feed and the scorer are parameters; plotting is left out. */
module Pipeline {
  import opened Posts
  import opened Dedup
  import opened Store
  import opened Collector
  import opened Aggregate

  /** Length of the collection window, in days before today. */
  const WindowDays: int := 50

  /** batch_size used by main (the collector's default). */
  const DefaultBatchSize: int := 100

  /** The table main aggregates and saves: when anything was collected, the
      keep-last merge of the stored rows with the collected ones; when nothing
      was, the empty collected table itself, not the stored rows. */
  function MergeCollected(stored: seq<Post>, collected: seq<Post>): (r: seq<Post>)
    ensures collected == [] ==> r == []
    ensures collected != [] ==> UniqueKeys(r)
    ensures collected != [] ==> KeySet(r) == KeySet(stored) + KeySet(collected)
    ensures collected != [] ==> IsSubsequence(r, stored + collected)
  {
    if collected == [] then collected else Merge(stored, collected)
  }

  /** main, with today's date given. Returns the daily table it would plot. */
  method Run(file: CsvFile, feed: seq<Post>, today: Day, score: string -> real) returns (daily: seq<DayMean>)
    modifies file
    ensures var stored := if old(file.present) then old(file.rows) else [];
      var collected := Collected(feed, today - WindowDays, today);
      var merged := MergeCollected(stored, collected);
      && daily == DailyAverage(merged, score)
      && file.State() == SaveTo(Replay(old(file.State()), FlushLog(collected, DefaultBatchSize)), merged)
    ensures Collected(feed, today - WindowDays, today) == [] ==> daily == []
    ensures file.present && UniqueKeys(file.rows)
    ensures KeySet(Collected(feed, today - WindowDays, today)) <= KeySet(file.rows)
    ensures old(file.present) ==> KeySet(old(file.rows)) <= KeySet(file.rows)
  {
    var end := today;
    var start := end - WindowDays;
    var stored := file.Load();
    var collected;
    ghost var log;
    collected, log := Collect(file, feed, start, end, DefaultBatchSize);
    ghost var afterCollect := file.State();
    CollectionPersists(old(file.State()), collected, DefaultBatchSize);
    var merged;
    if collected != [] {
      merged := Merge(stored, collected);
    } else {
      merged := collected;
    }
    daily := DailyAverage(merged, score);
    file.Save(merged);
    if !afterCollect.present {
      assert merged == [];
    }
  }

  /** Last write wins across the whole run: a collected post that is the last
      of its identity among the collected posts is, after main has saved, the
      only row of the file with that identity. */
  lemma RunKeepsNewestCopy(f: FileState, collected: seq<Post>, j: int)
    requires 0 <= j < |collected| && IsLastOfKey(collected, j)
    ensures var stored := if f.present then f.rows else [];
      var final := SaveTo(Replay(f, FlushLog(collected, DefaultBatchSize)), MergeCollected(stored, collected));
      && collected[j] in final.rows
      && forall q :: q in final.rows && KeyOf(q) == KeyOf(collected[j]) ==> q == collected[j]
  {
    var stored := if f.present then f.rows else [];
    var merged := MergeCollected(stored, collected);
    IncomingWins(stored, collected, j);
    var m :| 0 <= m < |merged| && merged[m] == collected[j];
    assert IsLastOfKey(merged, m);
    var g := Replay(f, FlushLog(collected, DefaultBatchSize));
    CollectionPersists(f, collected, DefaultBatchSize);
    IncomingWins(g.rows, merged, m);
  }
}
