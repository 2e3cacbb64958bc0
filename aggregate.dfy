/** Daily sentiment, `analyze_daily_sentiment`: score each post as the mean of
    its title's and its text's scores, then group the posts by date and average
    that score per date. The scorer is a parameter standing for VADER's
    compound score. */
module Aggregate {
  import opened Posts
  import opened Averages

  /** One row of the daily table: a date and its mean Overall_Sentiment. */
  datatype DayMean = DayMean(date: Day, mean: real)

  /** Overall_Sentiment of one post. */
  function Overall(p: Post, score: string -> real): real
  {
    (score(p.title) + score(p.text)) / 2.0
  }

  /** The dates that occur in the table. */
  function DatesOf(posts: seq<Post>): set<Day>
  {
    set p | p in posts :: p.date
  }

  /** The dates that the daily table has a row for. */
  function DaysOf(daily: seq<DayMean>): set<Day>
  {
    set e | e in daily :: e.date
  }

  /** Number of posts dated d. */
  function CountOn(posts: seq<Post>, d: Day): (n: nat)
    ensures n > 0 <==> d in DatesOf(posts)
    ensures n <= |posts|
    decreases |posts|
  {
    if posts == [] then 0
    else
      assert DatesOf(posts) == {posts[0].date} + DatesOf(posts[1..]) by {
        assert forall p :: p in posts <==> p == posts[0] || p in posts[1..];
      }
      (if posts[0].date == d then 1 else 0) + CountOn(posts[1..], d)
  }

  /** Sum of Overall_Sentiment over the posts dated d. */
  function SumOn(posts: seq<Post>, d: Day, score: string -> real): real
    decreases |posts|
  {
    if posts == [] then 0.0
    else (if posts[0].date == d then Overall(posts[0], score) else 0.0) + SumOn(posts[1..], d, score)
  }

  /** Mean Overall_Sentiment of the posts dated d, a date that occurs. */
  function Mean(posts: seq<Post>, d: Day, score: string -> real): real
    requires d in DatesOf(posts)
  {
    Average(SumOn(posts, d, score), CountOn(posts, d))
  }

  predicate StrictlyAscending(ds: seq<Day>)
  {
    forall i, j :: 0 <= i < j < |ds| ==> ds[i] < ds[j]
  }

  /** Inserts d into an ascending list of distinct dates. */
  function InsertDate(d: Day, ds: seq<Day>): (r: seq<Day>)
    requires StrictlyAscending(ds)
    ensures StrictlyAscending(r)
    ensures forall x :: x in r <==> x == d || x in ds
    decreases |ds|
  {
    if ds == [] then [d]
    else if d < ds[0] then [d] + ds
    else if d == ds[0] then ds
    else
      assert StrictlyAscending(ds[1..]);
      var t := InsertDate(d, ds[1..]);
      assert forall x :: x in ds <==> x == ds[0] || x in ds[1..];
      assert forall x :: x in ds[1..] ==> ds[0] < x;
      AscendingCons(ds[0], t);
      [ds[0]] + t
  }

  lemma AscendingCons(x: Day, t: seq<Day>)
    requires StrictlyAscending(t)
    requires forall y :: y in t ==> x < y
    ensures StrictlyAscending([x] + t)
  {
    var r := [x] + t;
    forall i, j | 0 <= i < j < |r| ensures r[i] < r[j] {
      assert r[j] == t[j - 1] && r[j] in t;
      if i > 0 {
        assert r[i] == t[i - 1];
      }
    }
  }

  /** The distinct dates of the table in ascending order (groupby's sorted keys). */
  function DistinctDates(posts: seq<Post>): (ds: seq<Day>)
    ensures StrictlyAscending(ds)
    ensures forall x :: x in ds <==> x in DatesOf(posts)
    decreases |posts|
  {
    if posts == [] then []
    else
      assert forall p :: p in posts <==> p == posts[0] || p in posts[1..];
      InsertDate(posts[0].date, DistinctDates(posts[1..]))
  }

  /** One daily row per date of ds, in the order of ds. */
  function MeansFor(ds: seq<Day>, posts: seq<Post>, score: string -> real): (r: seq<DayMean>)
    requires forall d :: d in ds ==> d in DatesOf(posts)
    ensures |r| == |ds|
    ensures forall i :: 0 <= i < |r| ==> r[i] == DayMean(ds[i], Mean(posts, ds[i], score))
    decreases |ds|
  {
    if ds == [] then []
    else [DayMean(ds[0], Mean(posts, ds[0], score))] + MeansFor(ds[1..], posts, score)
  }

  /** groupby('Date').agg({'Overall_Sentiment': 'mean'}): one row per date that
      occurs, in ascending date order, no row for a date without posts, each
      row's value the mean Overall_Sentiment of that date's posts. */
  function DailyAverage(posts: seq<Post>, score: string -> real): (r: seq<DayMean>)
    ensures forall i, j :: 0 <= i < j < |r| ==> r[i].date < r[j].date
    ensures DaysOf(r) == DatesOf(posts)
    ensures forall e :: e in r ==>
      CountOn(posts, e.date) > 0 && Repeat(e.mean, CountOn(posts, e.date)) == SumOn(posts, e.date, score)
  {
    DailyRowsMeanTheirDate(posts, score);
    MeansFor(DistinctDates(posts), posts, score)
  }

  lemma DailyRowsMeanTheirDate(posts: seq<Post>, score: string -> real)
    ensures var ds := DistinctDates(posts);
      var r := MeansFor(ds, posts, score);
      && DaysOf(r) == DatesOf(posts)
      && forall e :: e in r ==>
        CountOn(posts, e.date) > 0 && Repeat(e.mean, CountOn(posts, e.date)) == SumOn(posts, e.date, score)
  {
    var ds := DistinctDates(posts);
    var r := MeansFor(ds, posts, score);
    DailyRowDays(ds, r, posts, score);
    forall e | e in r
      ensures CountOn(posts, e.date) > 0 && Repeat(e.mean, CountOn(posts, e.date)) == SumOn(posts, e.date, score)
    {
      var i :| 0 <= i < |r| && r[i] == e;
      AverageRepeated(SumOn(posts, ds[i], score), CountOn(posts, ds[i]));
    }
  }

  lemma DailyRowDays(ds: seq<Day>, r: seq<DayMean>, posts: seq<Post>, score: string -> real)
    requires forall x :: x in ds <==> x in DatesOf(posts)
    requires r == MeansFor(ds, posts, score)
    ensures DaysOf(r) == DatesOf(posts)
  {
    forall x | x in DatesOf(posts) ensures x in DaysOf(r) {
      var i :| 0 <= i < |ds| && ds[i] == x;
      assert r[i].date == x;
    }
  }

  lemma {:induction false} SumOnBounds(posts: seq<Post>, d: Day, score: string -> real, lo: real, hi: real)
    requires forall p :: p in posts ==> lo <= score(p.title) <= hi && lo <= score(p.text) <= hi
    ensures Repeat(lo, CountOn(posts, d)) <= SumOn(posts, d, score) <= Repeat(hi, CountOn(posts, d))
    decreases |posts|
  {
    if posts != [] {
      assert forall q :: q in posts[1..] ==> q in posts;
      SumOnBounds(posts[1..], d, score, lo, hi);
      var c := CountOn(posts[1..], d);
      if posts[0].date == d {
        assert lo <= Overall(posts[0], score) <= hi;
        assert CountOn(posts, d) == c + 1;
        assert Repeat(lo, c + 1) == lo + Repeat(lo, c) && Repeat(hi, c + 1) == hi + Repeat(hi, c);
      } else {
        assert CountOn(posts, d) == c;
      }
    }
  }

  /** When every title and text score lies in [lo, hi], so does every daily
      mean (with VADER's compound score, [-1, 1]). */
  lemma DailyMeanWithinScoreBounds(posts: seq<Post>, score: string -> real, lo: real, hi: real)
    requires forall p :: p in posts ==> lo <= score(p.title) <= hi && lo <= score(p.text) <= hi
    ensures forall e :: e in DailyAverage(posts, score) ==> lo <= e.mean <= hi
  {
    var ds := DistinctDates(posts);
    var r := MeansFor(ds, posts, score);
    forall e | e in r ensures lo <= e.mean <= hi {
      var i :| 0 <= i < |r| && r[i] == e;
      SumOnBounds(posts, ds[i], score, lo, hi);
      AverageWithin(SumOn(posts, ds[i], score), CountOn(posts, ds[i]), lo, hi);
    }
  }

  lemma {:induction false} SumOnAppend(a: seq<Post>, b: seq<Post>, d: Day, score: string -> real)
    ensures SumOn(a + b, d, score) == SumOn(a, d, score) + SumOn(b, d, score)
    ensures CountOn(a + b, d) == CountOn(a, d) + CountOn(b, d)
    decreases |a|
  {
    if a == [] {
      assert a + b == b;
    } else {
      assert (a + b)[0] == a[0] && (a + b)[1..] == a[1..] + b;
      SumOnAppend(a[1..], b, d, score);
    }
  }

  /** Per-date sums and counts depend only on which posts there are, not on their order. */
  lemma {:induction false} SumOnPermutation(a: seq<Post>, b: seq<Post>, d: Day, score: string -> real)
    requires multiset(a) == multiset(b)
    ensures SumOn(a, d, score) == SumOn(b, d, score)
    ensures CountOn(a, d) == CountOn(b, d)
    decreases |a|
  {
    if a == [] {
      assert b == [] by { assert |b| == |multiset(b)|; }
    } else {
      assert a[0] in multiset(b);
      var i :| 0 <= i < |b| && b[i] == a[0];
      MultisetRemove(a, b, i);
      SumOnPermutation(a[1..], b[..i] + b[i + 1..], d, score);
      SumOnRemove(a, 0, d, score);
      SumOnRemove(b, i, d, score);
      assert a[..0] + a[1..] == a[1..];
    }
  }

  /** Taking the post at index i out of s takes exactly its share off a date's sum and count. */
  lemma SumOnRemove(s: seq<Post>, i: int, d: Day, score: string -> real)
    requires 0 <= i < |s|
    ensures SumOn(s, d, score) == SumOn([s[i]], d, score) + SumOn(s[..i] + s[i + 1..], d, score)
    ensures CountOn(s, d) == CountOn([s[i]], d) + CountOn(s[..i] + s[i + 1..], d)
  {
    assert s == s[..i] + ([s[i]] + s[i + 1..]);
    SumOnAppend(s[..i], [s[i]] + s[i + 1..], d, score);
    SumOnAppend([s[i]], s[i + 1..], d, score);
    SumOnAppend(s[..i], s[i + 1..], d, score);
  }

  lemma MultisetRemove(a: seq<Post>, b: seq<Post>, i: int)
    requires a != [] && multiset(a) == multiset(b) && 0 <= i < |b| && b[i] == a[0]
    ensures multiset(a[1..]) == multiset(b[..i] + b[i + 1..])
  {
    assert a == [a[0]] + a[1..];
    assert b == b[..i] + [b[i]] + b[i + 1..];
    assert multiset(a[1..]) == multiset(a) - multiset{a[0]};
    assert multiset(b[..i] + b[i + 1..]) == multiset(b) - multiset{b[i]};
  }


  lemma {:induction false} AscendingUnique(x: seq<Day>, y: seq<Day>)
    requires StrictlyAscending(x) && StrictlyAscending(y)
    requires forall d :: d in x <==> d in y
    ensures x == y
    decreases |x|
  {
    assert x != [] ==> x[0] in x;
    assert y != [] ==> y[0] in y;
    if x != [] && y != [] {
      assert x[0] == y[0];
      forall d ensures d in x[1..] <==> d in y[1..] {
        assert d in x[1..] <==> d in x && d != x[0];
        assert d in y[1..] <==> d in y && d != y[0];
      }
      AscendingUnique(x[1..], y[1..]);
      assert x == [x[0]] + x[1..] && y == [y[0]] + y[1..];
    }
  }

  /** The daily table is a function of the posts alone: reordering the rows of
      the store does not change it. */
  lemma DailyAverageOrderIndependent(a: seq<Post>, b: seq<Post>, score: string -> real)
    requires multiset(a) == multiset(b)
    ensures DailyAverage(a, score) == DailyAverage(b, score)
  {
    assert forall p :: p in a <==> p in b by {
      forall p ensures p in a <==> p in b {
        assert p in a <==> p in multiset(a);
        assert p in b <==> p in multiset(b);
      }
    }
    assert DatesOf(a) == DatesOf(b);
    AscendingUnique(DistinctDates(a), DistinctDates(b));
    var ds := DistinctDates(a);
    var ra := MeansFor(ds, a, score);
    var rb := MeansFor(ds, b, score);
    forall i | 0 <= i < |ds| ensures ra[i] == rb[i] {
      SumOnPermutation(a, b, ds[i], score);
    }
  }

  /** Two posts on the same day whose title and text both score 1 and -1
      respectively average to 0 for that day, the only day in the table. */
  lemma OppositePostsCancel(score: string -> real, day: Day)
    requires score("a") == 1.0 && score("b") == 1.0
    requires score("c") == -1.0 && score("d") == -1.0
    ensures DailyAverage([Post("a", "b", day), Post("c", "d", day)], score) == [DayMean(day, 0.0)]
  {
    var posts := [Post("a", "b", day), Post("c", "d", day)];
    assert posts[1..] == [Post("c", "d", day)];
    assert DistinctDates(posts[1..]) == [day];
    assert DistinctDates(posts) == [day];
    assert Overall(posts[0], score) == 1.0;
    assert Overall(posts[1], score) == -1.0;
    assert SumOn(posts[1..], day, score) == -1.0;
    assert SumOn(posts, day, score) == 0.0;
    assert CountOn(posts, day) == 2;
  }
}
