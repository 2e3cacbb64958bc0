/** Keep-last deduplication on the (Title, Text) identity: the
    `concat(...).drop_duplicates(subset=['Title', 'Text'], keep='last')` step
    shared by the CSV save and by the merge in the driver. */
module Dedup {
  import opened Posts

  /** Row i has no later row with the same identity. */
  predicate IsLastOfKey(s: seq<Post>, i: int)
    requires 0 <= i < |s|
  {
    forall j :: i < j < |s| ==> KeyOf(s[j]) != KeyOf(s[i])
  }

  /** Keeps each row that no later row shares an identity with, in table order. */
  function KeepLast(s: seq<Post>): (r: seq<Post>)
    ensures |r| <= |s|
    ensures forall p :: p in r ==> p in s
    decreases |s|
  {
    if s == [] then []
    else if KeyOf(s[0]) in KeySet(s[1..]) then KeepLast(s[1..])
    else [s[0]] + KeepLast(s[1..])
  }

  /** Reference reading of keep-last: scan row indices 0 .. n-1 in order and
      retain exactly those rows that are the last of their identity in s. */
  function Survivors(s: seq<Post>, n: nat): seq<Post>
    requires n <= |s|
  {
    if n == 0 then []
    else Survivors(s, n - 1) + (if IsLastOfKey(s, n - 1) then [s[n - 1]] else [])
  }

  /** Concatenate existing rows with incoming rows and deduplicate, keeping the
      last occurrence of each identity. */
  function Merge(existing: seq<Post>, incoming: seq<Post>): (r: seq<Post>)
    ensures UniqueKeys(r)
    ensures KeySet(r) == KeySet(existing) + KeySet(incoming)
    ensures IsSubsequence(r, existing + incoming)
  {
    KeepLastKeys(existing + incoming);
    KeySetAppend(existing, incoming);
    KeepLastUnique(existing + incoming);
    KeepLastSubsequence(existing + incoming);
    KeepLast(existing + incoming)
  }

  lemma IsLastOfKeyHead(s: seq<Post>)
    requires |s| > 0
    ensures IsLastOfKey(s, 0) <==> KeyOf(s[0]) !in KeySet(s[1..])
  {
    if KeyOf(s[0]) in KeySet(s[1..]) {
      var q :| q in s[1..] && KeyOf(q) == KeyOf(s[0]);
      var j :| 0 <= j < |s[1..]| && s[1..][j] == q;
      assert s[j + 1] == q;
    }
  }

  lemma IsLastOfKeyTail(s: seq<Post>, i: int)
    requires 1 <= i < |s|
    ensures IsLastOfKey(s, i) <==> IsLastOfKey(s[1..], i - 1)
  {
    assert forall j :: i - 1 < j < |s[1..]| ==> s[1..][j] == s[j + 1];
    if !IsLastOfKey(s, i) {
      var j :| i < j < |s| && KeyOf(s[j]) == KeyOf(s[i]);
      assert s[1..][j - 1] == s[j];
    }
  }

  /** Scanning s from the front: the first row's fate, then the rest's. */
  lemma {:induction false} SurvivorsCons(s: seq<Post>, n: nat)
    requires 1 <= n <= |s|
    ensures Survivors(s, n) == (if IsLastOfKey(s, 0) then [s[0]] else []) + Survivors(s[1..], n - 1)
  {
    if n > 1 {
      SurvivorsCons(s, n - 1);
      IsLastOfKeyTail(s, n - 1);
      assert s[1..][n - 2] == s[n - 1];
    }
  }

  /** KeepLast is exactly the keep-last rule: a row is kept iff no later row
      has its identity, and kept rows stay in their original order. */
  lemma {:induction false} KeepLastIsIndexFilter(s: seq<Post>)
    ensures KeepLast(s) == Survivors(s, |s|)
  {
    if s != [] {
      var t := s[1..];
      KeepLastIsIndexFilter(t);
      SurvivorsCons(s, |s|);
      IsLastOfKeyHead(s);
      if IsLastOfKey(s, 0) {
        assert KeepLast(s) == [s[0]] + KeepLast(t);
      } else {
        assert KeepLast(s) == KeepLast(t);
        assert Survivors(s, |s|) == [] + Survivors(t, |t|);
      }
    }
  }

  /** Deduplication loses no identity and invents none. */
  lemma {:induction false} KeepLastKeys(s: seq<Post>)
    ensures KeySet(KeepLast(s)) == KeySet(s)
  {
    if s != [] {
      assert s == [s[0]] + s[1..];
      KeySetCons(s[0], s[1..]);
      KeepLastKeys(s[1..]);
      if KeyOf(s[0]) !in KeySet(s[1..]) {
        KeySetCons(s[0], KeepLast(s[1..]));
      }
    }
  }

  /** After deduplication no two rows share an identity. */
  lemma {:induction false} KeepLastUnique(s: seq<Post>)
    ensures UniqueKeys(KeepLast(s))
  {
    if s != [] {
      KeepLastUnique(s[1..]);
      if KeyOf(s[0]) !in KeySet(s[1..]) {
        KeepLastKeys(s[1..]);
        UniqueKeysCons(s[0], KeepLast(s[1..]));
      }
    }
  }

  /** The surviving rows keep their relative order. */
  lemma {:induction false} KeepLastSubsequence(s: seq<Post>)
    ensures IsSubsequence(KeepLast(s), s)
  {
    if s != [] {
      KeepLastSubsequence(s[1..]);
      if KeyOf(s[0]) !in KeySet(s[1..]) {
        assert ([s[0]] + KeepLast(s[1..]))[1..] == KeepLast(s[1..]);
      }
    }
  }

  /** The last row with a given identity survives, and it is the only survivor
      carrying that identity. */
  lemma {:induction false} LastOccurrenceWins(s: seq<Post>, i: int)
    requires 0 <= i < |s| && IsLastOfKey(s, i)
    ensures s[i] in KeepLast(s)
    ensures forall q :: q in KeepLast(s) && KeyOf(q) == KeyOf(s[i]) ==> q == s[i]
  {
    IsLastOfKeyHead(s);
    KeepLastKeys(s[1..]);
    if i == 0 {
      assert forall q :: q in KeepLast(s[1..]) ==> KeyOf(q) in KeySet(s[1..]);
    } else {
      IsLastOfKeyTail(s, i);
      LastOccurrenceWins(s[1..], i - 1);
      assert s[1..][i - 1] == s[i];
      assert KeyOf(s[i]) in KeySet(s[1..]);
    }
  }

  /** A table that is already free of duplicate identities is left unchanged. */
  lemma {:induction false} KeepLastOfUnique(s: seq<Post>)
    requires UniqueKeys(s)
    ensures KeepLast(s) == s
  {
    if s != [] {
      assert UniqueKeys(s[1..]) by {
        forall i, j | 0 <= i < j < |s[1..]| ensures KeyOf(s[1..][i]) != KeyOf(s[1..][j]) {
          assert s[1..][i] == s[i + 1] && s[1..][j] == s[j + 1];
        }
      }
      KeepLastOfUnique(s[1..]);
      assert IsLastOfKey(s, 0);
      IsLastOfKeyHead(s);
    }
  }

  /** Deduplicating twice is the same as deduplicating once. */
  lemma KeepLastIdempotent(s: seq<Post>)
    ensures KeepLast(KeepLast(s)) == KeepLast(s)
  {
    KeepLastUnique(s);
    KeepLastOfUnique(KeepLast(s));
  }

  /** One row per identity: the deduplicated table is as long as the number of identities. */
  lemma KeepLastCount(s: seq<Post>)
    ensures |KeepLast(s)| == |KeySet(s)|
  {
    KeepLastUnique(s);
    UniqueKeysCount(KeepLast(s));
    KeepLastKeys(s);
  }

  /** On an identity collision the incoming row replaces the existing one:
      the last incoming row of an identity is the only survivor with it. */
  lemma IncomingWins(existing: seq<Post>, incoming: seq<Post>, j: int)
    requires 0 <= j < |incoming| && IsLastOfKey(incoming, j)
    ensures incoming[j] in Merge(existing, incoming)
    ensures forall q :: q in Merge(existing, incoming) && KeyOf(q) == KeyOf(incoming[j]) ==> q == incoming[j]
  {
    var s := existing + incoming;
    var i := |existing| + j;
    assert s[i] == incoming[j];
    forall k | i < k < |s| ensures KeyOf(s[k]) != KeyOf(s[i]) {
      assert s[k] == incoming[k - |existing|];
    }
    LastOccurrenceWins(s, i);
  }

  /** Merging nothing into a deduplicated table leaves it unchanged. */
  lemma MergeNothing(existing: seq<Post>)
    requires UniqueKeys(existing)
    ensures Merge(existing, []) == existing
  {
    assert existing + [] == existing;
    KeepLastOfUnique(existing);
  }

  /** Merging one post whose identity is already stored keeps the table size,
      and the stored row with that identity is replaced by the new one. */
  lemma MergeReplacesOne(stored: seq<Post>, p: Post, q: Post)
    requires UniqueKeys(stored) && q in stored && KeyOf(p) == KeyOf(q)
    ensures |Merge(stored, [p])| == |stored|
    ensures p in Merge(stored, [p])
    ensures q != p ==> q !in Merge(stored, [p])
  {
    KeepLastCount(stored + [p]);
    KeySetAppend(stored, [p]);
    assert KeySet([p]) == {KeyOf(p)};
    assert KeyOf(p) in KeySet(stored);
    assert KeySet(stored + [p]) == KeySet(stored);
    UniqueKeysCount(stored);
    assert Merge(stored, [p]) == KeepLast(stored + [p]);
    IncomingWins(stored, [p], 0);
  }
}
