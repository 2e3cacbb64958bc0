/** The windowed collector `get_reddit_posts_for_date`: walk the feed newest
    first, stop at the first post older than the window, keep the posts inside
    the window, and save the collected rows to the CSV file every batch_size
    posts and once more at the end. */
module Collector {
  import opened Posts
  import opened Dedup
  import opened Store

  /** The post's day lies in the inclusive window [start, end]. */
  predicate InWindow(p: Post, start: Day, end: Day)
  {
    start <= p.date <= end
  }

  /** The feed is ordered newest first, as the feed source promises. */
  predicate NewestFirst(feed: seq<Post>)
  {
    forall i, j :: 0 <= i < j < |feed| ==> feed[i].date >= feed[j].date
  }

  /** Index of the first post dated before start (the loop's break), or the
      feed's length when there is none. */
  function StopIndex(feed: seq<Post>, start: Day): (k: nat)
    ensures k <= |feed|
    ensures forall i :: 0 <= i < k ==> feed[i].date >= start
    ensures k < |feed| ==> feed[k].date < start
    decreases |feed|
  {
    if feed == [] || feed[0].date < start then 0 else 1 + StopIndex(feed[1..], start)
  }

  /** The posts of s inside the window, in their order in s. */
  function WindowFilter(s: seq<Post>, start: Day, end: Day): (r: seq<Post>)
    ensures forall p :: p in r ==> InWindow(p, start, end)
    decreases |s|
  {
    if s == [] then []
    else if InWindow(s[0], start, end) then [s[0]] + WindowFilter(s[1..], start, end)
    else WindowFilter(s[1..], start, end)
  }

  /** The window filter only deletes posts: what it keeps is a subsequence of its input. */
  lemma {:induction false} WindowFilterSubsequence(s: seq<Post>, start: Day, end: Day)
    ensures IsSubsequence(WindowFilter(s, start, end), s)
    decreases |s|
  {
    if s != [] {
      WindowFilterSubsequence(s[1..], start, end);
      if InWindow(s[0], start, end) {
        assert ([s[0]] + WindowFilter(s[1..], start, end))[1..] == WindowFilter(s[1..], start, end);
      }
    }
  }

  /** What the collector returns: the in-window posts that come before the
      first post older than the window. */
  function Collected(feed: seq<Post>, start: Day, end: Day): (r: seq<Post>)
    ensures forall p :: p in r ==> InWindow(p, start, end)
    ensures IsSubsequence(r, feed)
  {
    var k := StopIndex(feed, start);
    assert feed == feed[..k] + feed[k..];
    WindowFilterSubsequence(feed[..k], start, end);
    SubsequenceOfPrefix(WindowFilter(feed[..k], start, end), feed[..k], feed[k..]);
    WindowFilter(feed[..k], start, end)
  }

  /** The saves made inside the loop while posts were collected: one each time
      the collected count became a multiple of batchSize, each saving every
      post collected so far. */
  function MidFlushes(posts: seq<Post>, batchSize: int): seq<seq<Post>>
    requires batchSize != 0
    decreases |posts|
  {
    if posts == [] then []
    else MidFlushes(posts[..|posts| - 1], batchSize) + (if |posts| % batchSize == 0 then [posts] else [])
  }

  /** The saves inside the loop: each holds a non-empty prefix of the collected
      posts whose length is a multiple of batchSize, the prefixes grow strictly,
      and no positive multiple of batchSize up to the number of collected posts
      is skipped. */
  lemma {:induction false} MidFlushesSchedule(posts: seq<Post>, batchSize: int)
    requires batchSize != 0
    ensures forall i :: 0 <= i < |MidFlushes(posts, batchSize)| ==>
      var r := MidFlushes(posts, batchSize);
      0 < |r[i]| <= |posts| && |r[i]| % batchSize == 0 && r[i] == posts[..|r[i]|]
    ensures forall i, j :: 0 <= i < j < |MidFlushes(posts, batchSize)| ==>
      |MidFlushes(posts, batchSize)[i]| < |MidFlushes(posts, batchSize)[j]|
    ensures forall k :: 0 < k <= |posts| && k % batchSize == 0 ==> posts[..k] in MidFlushes(posts, batchSize)
    decreases |posts|
  {
    if posts != [] {
      var init := posts[..|posts| - 1];
      MidFlushesSchedule(init, batchSize);
      assert forall m :: 0 <= m <= |init| ==> init[..m] == posts[..m];
      assert posts[..|posts|] == posts;
    }
  }

  /** Every save the collector makes: the saves inside the loop, then one final
      save of everything collected when anything was. */
  function FlushLog(posts: seq<Post>, batchSize: int): seq<seq<Post>>
    requires batchSize != 0
  {
    MidFlushes(posts, batchSize) + (if posts == [] then [] else [posts])
  }

  /** The file after the saves in log, in order, starting from f. */
  function Replay(f: FileState, log: seq<seq<Post>>): (g: FileState)
    ensures g.present == (f.present || log != [])
    decreases |log|
  {
    if log == [] then f
    else SaveTo(Replay(f, log[..|log| - 1]), log[|log| - 1])
  }

  /** A sequence of saves loses nothing: the file keeps every identity it held
      and every identity saved. */
  lemma {:induction false} ReplayKeeps(f: FileState, log: seq<seq<Post>>)
    ensures f.present ==> KeySet(f.rows) <= KeySet(Replay(f, log).rows)
    ensures forall i :: 0 <= i < |log| ==> KeySet(log[i]) <= KeySet(Replay(f, log).rows)
    decreases |log|
  {
    if log != [] {
      var init := log[..|log| - 1];
      var before := Replay(f, init);
      var after := SaveTo(before, log[|log| - 1]);
      ReplayKeeps(f, init);
      assert Replay(f, log) == after;
      assert KeySet(after.rows) == KeySet(log[|log| - 1]) + (if before.present then KeySet(before.rows) else {});
      forall i | 0 <= i < |init| ensures KeySet(log[i]) <= KeySet(Replay(f, log).rows) {
        assert init[i] == log[i];
      }
    }
  }

  /** After a sequence of saves the file is deduplicated once some save hit an
      existing file, and a single save onto an absent file leaves exactly that
      batch. */
  lemma ReplayDeduplicates(f: FileState, log: seq<seq<Post>>)
    ensures (|log| >= 2 || (f.present && log != [])) ==> UniqueKeys(Replay(f, log).rows)
    ensures !f.present && |log| == 1 ==> Replay(f, log).rows == log[0]
  {
    if log != [] {
      var init := log[..|log| - 1];
      assert Replay(f, init).present == (f.present || |log| >= 2);
    }
  }

  /** get_reddit_posts_for_date over a feed given newest first. The ghost log
      records every batch handed to save_posts_to_csv. */
  method Collect(file: CsvFile, feed: seq<Post>, start: Day, end: Day, batchSize: int)
    returns (posts: seq<Post>, ghost log: seq<seq<Post>>)
    requires batchSize != 0
    modifies file
    ensures posts == Collected(feed, start, end)
    ensures log == FlushLog(posts, batchSize)
    ensures file.State() == Replay(old(file.State()), log)
  {
    posts := [];
    log := [];
    var i := 0;
    while i < |feed|
      invariant 0 <= i <= StopIndex(feed, start)
      invariant posts == WindowFilter(feed[..i], start, end)
      invariant log == MidFlushes(posts, batchSize)
      invariant file.State() == Replay(old(file.State()), log)
    {
      var p := feed[i];
      if p.date < start {
        break;
      }
      CollectStep(feed, i, start, end);
      if start <= p.date <= end {
        MidFlushesSnoc(posts, p, batchSize);
        posts := posts + [p];
        if |posts| % batchSize == 0 {
          file.Save(posts);
          ReplaySnoc(old(file.State()), log, posts);
          log := log + [posts];
        }
      }
      i := i + 1;
    }
    assert i == StopIndex(feed, start);
    if |posts| > 0 {
      file.Save(posts);
      ReplaySnoc(old(file.State()), log, posts);
      log := log + [posts];
    }
  }

  /** One pass of the collector's loop over a post not older than the window:
      the walk has not yet reached its stop, and the post is kept exactly when
      it lies inside the window. */
  lemma CollectStep(feed: seq<Post>, i: int, start: Day, end: Day)
    requires 0 <= i <= StopIndex(feed, start) && i < |feed| && feed[i].date >= start
    ensures i + 1 <= StopIndex(feed, start)
    ensures WindowFilter(feed[..i + 1], start, end)
         == WindowFilter(feed[..i], start, end) + (if InWindow(feed[i], start, end) then [feed[i]] else [])
  {
    WindowFilterSnoc(feed[..i], feed[i], start, end);
    assert feed[..i + 1] == feed[..i] + [feed[i]];
  }

  lemma MidFlushesSnoc(posts: seq<Post>, p: Post, batchSize: int)
    requires batchSize != 0
    ensures MidFlushes(posts + [p], batchSize)
         == MidFlushes(posts, batchSize) + (if (|posts| + 1) % batchSize == 0 then [posts + [p]] else [])
  {
    assert (posts + [p])[..|posts|] == posts;
  }

  lemma ReplaySnoc(f: FileState, log: seq<seq<Post>>, batch: seq<Post>)
    ensures Replay(f, log + [batch]) == SaveTo(Replay(f, log), batch)
  {
    assert (log + [batch])[..|log|] == log;
  }

  lemma {:induction false} WindowFilterSnoc(s: seq<Post>, p: Post, start: Day, end: Day)
    ensures WindowFilter(s + [p], start, end)
         == WindowFilter(s, start, end) + (if InWindow(p, start, end) then [p] else [])
    decreases |s|
  {
    if s == [] {
      assert [p][1..] == [];
    } else {
      assert (s + [p])[1..] == s[1..] + [p];
      WindowFilterSnoc(s[1..], p, start, end);
    }
  }

  /** The collector step by step: a post older than the window ends the walk,
      an in-window post is kept, and a post newer than the window is skipped
      without ending it. */
  lemma CollectedCons(p: Post, feed: seq<Post>, start: Day, end: Day)
    ensures p.date < start ==> Collected([p] + feed, start, end) == []
    ensures start <= p.date <= end ==> Collected([p] + feed, start, end) == [p] + Collected(feed, start, end)
    ensures end < p.date && start <= p.date ==> Collected([p] + feed, start, end) == Collected(feed, start, end)
  {
    var s := [p] + feed;
    assert s[1..] == feed;
    if p.date >= start {
      var k := StopIndex(feed, start);
      assert StopIndex(s, start) == 1 + k;
      assert s[..1 + k] == [p] + feed[..k];
      assert s[..1 + k][1..] == feed[..k];
    }
  }

  lemma {:induction false} StopIndexAppend(feed: seq<Post>, tail: seq<Post>, start: Day)
    requires StopIndex(feed, start) < |feed|
    ensures StopIndex(feed + tail, start) == StopIndex(feed, start)
    decreases |feed|
  {
    if feed[0].date >= start {
      assert (feed + tail)[1..] == feed[1..] + tail;
      StopIndexAppend(feed[1..], tail, start);
    }
  }

  /** Once the walk has met a post older than the window, nothing later in the
      feed is collected, whatever its date. */
  lemma CollectedIgnoresAfterStop(feed: seq<Post>, tail: seq<Post>, start: Day, end: Day)
    requires StopIndex(feed, start) < |feed|
    ensures Collected(feed + tail, start, end) == Collected(feed, start, end)
  {
    var k := StopIndex(feed, start);
    StopIndexAppend(feed, tail, start);
    assert (feed + tail)[..k] == feed[..k];
  }

  lemma {:induction false} WindowFilterOfOlder(s: seq<Post>, start: Day, end: Day)
    requires forall i :: 0 <= i < |s| ==> s[i].date < start
    ensures WindowFilter(s, start, end) == []
    decreases |s|
  {
    if s != [] {
      WindowFilterOfOlder(s[1..], start, end);
    }
  }

  lemma {:induction false} WindowFilterAppend(a: seq<Post>, b: seq<Post>, start: Day, end: Day)
    ensures WindowFilter(a + b, start, end) == WindowFilter(a, start, end) + WindowFilter(b, start, end)
    decreases |a|
  {
    if a != [] {
      assert (a + b)[0] == a[0] && (a + b)[1..] == a[1..] + b;
      WindowFilterAppend(a[1..], b, start, end);
      if InWindow(a[0], start, end) {
        assert [a[0]] + WindowFilter(a[1..], start, end) + WindowFilter(b, start, end)
            == [a[0]] + (WindowFilter(a[1..], start, end) + WindowFilter(b, start, end));
      }
    } else {
      assert a + b == b;
    }
  }

  /** On a newest-first feed the early stop loses nothing: the collector
      returns exactly the feed's in-window posts. */
  lemma NewestFirstCollectsWholeWindow(feed: seq<Post>, start: Day, end: Day)
    requires NewestFirst(feed)
    ensures Collected(feed, start, end) == WindowFilter(feed, start, end)
  {
    var k := StopIndex(feed, start);
    NothingAfterStop(feed, start, end);
    assert feed == feed[..k] + feed[k..];
    WindowFilterAppend(feed[..k], feed[k..], start, end);
    assert WindowFilter(feed[..k], start, end) + [] == WindowFilter(feed[..k], start, end);
  }

  /** On a newest-first feed every post from the stop on is older than the
      window, so none of them is in it. */
  lemma NothingAfterStop(feed: seq<Post>, start: Day, end: Day)
    requires NewestFirst(feed)
    ensures WindowFilter(feed[StopIndex(feed, start)..], start, end) == []
  {
    var k := StopIndex(feed, start);
    var rest := feed[k..];
    forall i | 0 <= i < |rest| ensures rest[i].date < start {
      assert rest[i] == feed[k + i] && feed[k + i].date <= feed[k].date;
    }
    WindowFilterOfOlder(rest, start, end);
  }

  /** The saves that happen during collection: one per positive multiple of
      batchSize reached, each holding everything collected so far, and then a
      separate final one holding the whole result exactly when the result is
      non-empty, even when the last mid-loop save already held all of it. */
  lemma FlushSchedule(posts: seq<Post>, batchSize: int)
    requires batchSize != 0
    ensures |FlushLog(posts, batchSize)| == |MidFlushes(posts, batchSize)| + (if posts == [] then 0 else 1)
    ensures var log := FlushLog(posts, batchSize);
      && (posts != [] <==> (|log| > 0 && log[|log| - 1] == posts))
      && (forall i :: 0 <= i < |log| ==> 0 < |log[i]| <= |posts| && log[i] == posts[..|log[i]|])
      && (forall k :: 0 < k <= |posts| && k % batchSize == 0 ==> posts[..k] in log[..|MidFlushes(posts, batchSize)|])
  {
    var mid := MidFlushes(posts, batchSize);
    var log := FlushLog(posts, batchSize);
    MidFlushesSchedule(posts, batchSize);
    assert log[..|mid|] == mid;
    if posts == [] {
      assert log == [];
    } else {
      assert posts[..|posts|] == posts;
    }
  }

  /** A run interrupted after a first full batch has already put that batch's
      posts into the file. */
  lemma FirstBatchDurable(f: FileState, posts: seq<Post>, batchSize: int)
    requires 0 < batchSize <= |posts|
    ensures KeySet(posts[..batchSize]) <= KeySet(Replay(f, MidFlushes(posts, batchSize)).rows)
  {
    var log := MidFlushes(posts, batchSize);
    MidFlushesSchedule(posts, batchSize);
    ReplayKeeps(f, log);
    assert batchSize % batchSize == 0;
    assert posts[..batchSize] in log;
    var i :| 0 <= i < |log| && log[i] == posts[..batchSize];
  }

  /** After a complete collection the file holds every collected post's
      identity and every identity it held before. */
  lemma CollectionPersists(f: FileState, posts: seq<Post>, batchSize: int)
    requires batchSize != 0
    ensures var g := Replay(f, FlushLog(posts, batchSize));
      && KeySet(posts) <= KeySet(g.rows)
      && (f.present ==> KeySet(f.rows) <= KeySet(g.rows))
      && g.present == (f.present || posts != [])
  {
    var log := FlushLog(posts, batchSize);
    ReplayKeeps(f, log);
    if posts != [] {
      assert log[|log| - 1] == posts;
    } else {
      assert log == [];
    }
  }
}
