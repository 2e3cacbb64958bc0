/** Post records as the collector stores them: the columns Title, Text and Date,
    and the (Title, Text) identity that deduplication uses. */
module Posts {

  /** A calendar day, as an integer day number. */
  type Day = int

  /** One row of the posts table. */
  datatype Post = Post(title: string, text: string, date: Day)

  /** Identity of a post for deduplication: the (Title, Text) pair; the date is not part of it. */
  datatype PostKey = PostKey(title: string, text: string)

  function KeyOf(p: Post): PostKey
  {
    PostKey(p.title, p.text)
  }

  /** The identities present in a table. */
  function KeySet(s: seq<Post>): set<PostKey>
  {
    set p | p in s :: KeyOf(p)
  }

  /** No two rows of the table share an identity. */
  predicate UniqueKeys(s: seq<Post>)
  {
    forall i, j :: 0 <= i < j < |s| ==> KeyOf(s[i]) != KeyOf(s[j])
  }

  /** a can be obtained from b by deleting rows, without reordering the rest. */
  predicate IsSubsequence(a: seq<Post>, b: seq<Post>)
    decreases |b|
  {
    if a == [] then true
    else if b == [] then false
    else (a[0] == b[0] && IsSubsequence(a[1..], b[1..])) || IsSubsequence(a, b[1..])
  }

  lemma KeySetCons(p: Post, s: seq<Post>)
    ensures KeySet([p] + s) == {KeyOf(p)} + KeySet(s)
  {
    assert forall q :: q in [p] + s <==> q == p || q in s;
  }

  lemma KeySetAppend(a: seq<Post>, b: seq<Post>)
    ensures KeySet(a + b) == KeySet(a) + KeySet(b)
  {
    assert forall q :: q in a + b <==> q in a || q in b;
  }

  /** Putting a post with a fresh identity in front keeps identities unique. */
  lemma UniqueKeysCons(p: Post, s: seq<Post>)
    requires UniqueKeys(s) && KeyOf(p) !in KeySet(s)
    ensures UniqueKeys([p] + s)
  {
    var r := [p] + s;
    forall i, j | 0 <= i < j < |r| ensures KeyOf(r[i]) != KeyOf(r[j]) {
      if i == 0 {
        assert r[j] == s[j - 1] && KeyOf(s[j - 1]) in KeySet(s);
      } else {
        assert r[i] == s[i - 1] && r[j] == s[j - 1];
      }
    }
  }

  /** The rows after the first of a duplicate-free table are duplicate-free and
      do not repeat the first row's identity. */
  lemma UniqueKeysTail(s: seq<Post>)
    requires s != [] && UniqueKeys(s)
    ensures UniqueKeys(s[1..]) && KeyOf(s[0]) !in KeySet(s[1..])
  {
    forall i, j | 0 <= i < j < |s[1..]| ensures KeyOf(s[1..][i]) != KeyOf(s[1..][j]) {
      assert s[1..][i] == s[i + 1] && s[1..][j] == s[j + 1];
    }
    assert forall q :: q in s[1..] ==> KeyOf(q) != KeyOf(s[0]);
  }

  /** A table without duplicate identities has as many identities as rows. */
  lemma {:induction false} UniqueKeysCount(s: seq<Post>)
    requires UniqueKeys(s)
    ensures |KeySet(s)| == |s|
  {
    if s != [] {
      assert s == [s[0]] + s[1..];
      KeySetCons(s[0], s[1..]);
      UniqueKeysTail(s);
      UniqueKeysCount(s[1..]);
    }
  }

  /** Every subsequence of a prefix is a subsequence of the whole table. */
  lemma {:induction false} SubsequenceOfPrefix(a: seq<Post>, b: seq<Post>, c: seq<Post>)
    requires IsSubsequence(a, b)
    ensures IsSubsequence(a, b + c)
    decreases |b|
  {
    if a != [] {
      assert (b + c)[1..] == b[1..] + c;
      if a[0] == b[0] && IsSubsequence(a[1..], b[1..]) {
        SubsequenceOfPrefix(a[1..], b[1..], c);
      } else {
        SubsequenceOfPrefix(a, b[1..], c);
      }
    }
  }
}
