/**
 The post resolver: the `excerpt` field, the paginated `posts` feed, the
 `vote` mutation and the `updatePost` mutation. The feed and the excerpt are
 pure computations over rows; `vote` and `updatePost` change the `post` and
 `updoot` tables, held by the class `PostStore`.
 */
module PostResolver {
  import opened Wrappers
  import opened Entities
  import opened VoteLedger

  // ---------------------------------------------------------------------------
  // JavaScript's `slice(0, end)` on strings and arrays

  /**
   `s.slice(0, end)`: a negative `end` counts from the back, an `end` past the
   length stops at the length.
   */
  function SliceTo<T>(s: seq<T>, end: int): (r: seq<T>)
    ensures |r| == if end < 0 then (if |s| + end < 0 then 0 else |s| + end)
                   else (if end < |s| then end else |s|)
    ensures r == s[..|r|]
  {
    if end < 0 then (if |s| + end < 0 then [] else s[..|s| + end])
    else if end < |s| then s[..end]
    else s
  }

  // ---------------------------------------------------------------------------
  // excerpt

  const ExcerptLength := 175

  /** The first 175 characters of a post's text. */
  function Excerpt(text: string): (r: string)
    ensures |r| == if |text| < ExcerptLength then |text| else ExcerptLength
    ensures r == text[..|r|]
    ensures |text| <= ExcerptLength ==> r == text
  {
    SliceTo(text, ExcerptLength)
  }

  // ---------------------------------------------------------------------------
  // posts: the cursor-paginated feed

  const MaxPageSize := 50

  /** `Math.min(50, limit)`. */
  function RealLimit(limit: int): (r: int)
    ensures r <= MaxPageSize && r <= limit
    ensures r == MaxPageSize || r == limit
  {
    if limit < MaxPageSize then limit else MaxPageSize
  }

  /** The `where p."createdAt" < cursor` filter, which applies only when a cursor is given. */
  predicate OlderThan(post: Post, cursor: Option<int>)
  {
    cursor.None? || post.createdAt < cursor.value
  }

  /** The rows the query may return, in table order. */
  function Eligible(rows: seq<Post>, cursor: Option<int>): (r: seq<Post>)
    ensures forall x :: x in r <==> x in rows && OlderThan(x, cursor)
    ensures |r| <= |rows|
  {
    if rows == [] then []
    else (if OlderThan(rows[0], cursor) then [rows[0]] else []) + Eligible(rows[1..], cursor)
  }

  /**
   The filter keeps every eligible row as often as the table holds it and
   drops every other row, so `|Eligible(rows, cursor)|` is the number of
   eligible rows of the table.
   */
  lemma {:induction false} EligibleMultiplicity(rows: seq<Post>, cursor: Option<int>)
    ensures forall x :: multiset(Eligible(rows, cursor))[x] == if OlderThan(x, cursor) then multiset(rows)[x] else 0
  {
    if rows != [] {
      assert rows == [rows[0]] + rows[1..];
      EligibleMultiplicity(rows[1..], cursor);
    }
  }

  /** `order by p."createdAt" DESC`. */
  ghost predicate NewestFirst(s: seq<Post>)
  {
    forall i, j :: 0 <= i < j < |s| ==> s[i].createdAt >= s[j].createdAt
  }

  /** A row at least as new as every row of a newest-first sequence can go in front of it. */
  lemma PrependNewest(y: Post, t: seq<Post>)
    requires NewestFirst(t)
    requires forall z :: z in t ==> y.createdAt >= z.createdAt
    ensures NewestFirst([y] + t)
  {
  }

  /** Every row of a newest-first sequence is at most as new as its head. */
  lemma HeadIsNewest(s: seq<Post>, z: Post)
    requires NewestFirst(s) && |s| > 0 && z in s[1..]
    ensures s[0].createdAt >= z.createdAt
  {
  }

  /** Places `x` before the first row that is not newer than it. */
  function InsertByDate(x: Post, s: seq<Post>): (r: seq<Post>)
    requires NewestFirst(s)
    ensures NewestFirst(r)
    ensures multiset(r) == multiset(s) + multiset{x}
  {
    if s == [] || s[0].createdAt <= x.createdAt then
      PrependNewest(x, s);
      [x] + s
    else
      var rest := InsertByDate(x, s[1..]);
      assert s == [s[0]] + s[1..];
      forall z | z in rest
        ensures s[0].createdAt >= z.createdAt
      {
        assert z in multiset(s[1..]) + multiset{x};
        if z != x {
          HeadIsNewest(s, z);
        }
      }
      PrependNewest(s[0], rest);
      [s[0]] + rest
  }

  /**
   The database's descending sort on `createdAt`. Rows with equal timestamps
   keep their table order: one of the orders the database may return.
   */
  function OrderByNewest(s: seq<Post>): (r: seq<Post>)
    ensures NewestFirst(r)
    ensures multiset(r) == multiset(s)
  {
    if s == [] then []
    else
      assert s == [s[0]] + s[1..];
      InsertByDate(s[0], OrderByNewest(s[1..]))
  }

  /** The rows the SQL query returns: filtered, sorted newest first, at most `n` of them. */
  function Fetch(rows: seq<Post>, cursor: Option<int>, n: nat): (r: seq<Post>)
    ensures |r| == if n < |Eligible(rows, cursor)| then n else |Eligible(rows, cursor)|
    ensures r == OrderByNewest(Eligible(rows, cursor))[..|r|]
    ensures NewestFirst(r)
    ensures forall x :: x in r ==> x in rows && OlderThan(x, cursor)
  {
    var sorted := OrderByNewest(Eligible(rows, cursor));
    assert |sorted| == |Eligible(rows, cursor)| by {
      assert |multiset(sorted)| == |multiset(Eligible(rows, cursor))|;
    }
    var r := SliceTo(sorted, n);
    assert forall x :: x in r ==> x in multiset(sorted);
    r
  }

  datatype PaginatedPosts = PaginatedPosts(posts: seq<Post>, hasMore: bool)

  /** The database refuses a negative `LIMIT`. */
  datatype QueryError = NegativeLimit

  /**
   The `posts` query: fetch one row more than the page size, return the page
   and report whether that extra row came back.
   */
  function Posts(rows: seq<Post>, limit: int, cursor: Option<int>): (r: Result<PaginatedPosts, QueryError>)
    ensures r.Failure? <==> limit < -1
    ensures limit == -1 ==> r == Success(PaginatedPosts([], true))
    ensures r.Success? ==> NewestFirst(r.value.posts) && |r.value.posts| <= MaxPageSize
    ensures r.Success? ==> forall x :: x in r.value.posts ==> x in rows && OlderThan(x, cursor)
  {
    var realLimit := RealLimit(limit);
    var realLimitPlusOne := realLimit + 1;
    if realLimitPlusOne < 0 then Failure(NegativeLimit)
    else
      var fetched := Fetch(rows, cursor, realLimitPlusOne);
      var page := SliceTo(fetched, realLimit);
      assert forall x :: x in page ==> x in fetched;
      Success(PaginatedPosts(page, |fetched| == realLimitPlusOne))
  }

  /**
   For a non-negative limit the page holds the newest `min(50, limit)`
   eligible rows, and `hasMore` says exactly that more rows were eligible.
   */
  lemma PostsPage(rows: seq<Post>, limit: int, cursor: Option<int>)
    requires limit >= 0
    ensures Posts(rows, limit, cursor).Success?
    ensures var page, eligible := Posts(rows, limit, cursor).value, Eligible(rows, cursor);
      && |page.posts| == (if RealLimit(limit) < |eligible| then RealLimit(limit) else |eligible|)
      && (page.hasMore <==> |eligible| > RealLimit(limit))
      && page.posts == OrderByNewest(eligible)[..|page.posts|]
  {
    var realLimit := RealLimit(limit);
    var eligible := Eligible(rows, cursor);
    var sorted := OrderByNewest(eligible);
    var fetched := Fetch(rows, cursor, realLimit + 1);
    var page := SliceTo(fetched, realLimit);
    assert Posts(rows, limit, cursor) == Success(PaginatedPosts(page, |fetched| == realLimit + 1));
    assert |page| == (if realLimit < |eligible| then realLimit else |eligible|);
    assert page == sorted[..|page|] by {
      assert fetched == sorted[..|fetched|];
      assert page == fetched[..|page|];
    }
  }


  // ---------------------------------------------------------------------------
  // vote and updatePost

  /** Only -1 is a downvote; every other integer counts as an upvote. */
  function NormalizeVote(value: int): (r: int)
    ensures r == 1 || r == -1
    ensures r == -1 <==> value == -1
  {
    if value != -1 then 1 else -1
  }

  /**
   The `post` table keyed by id agrees with the ledger: each post's points are
   the sum of its votes, and every vote refers to an existing post (the
   foreign key of `updoot.postId`).
   */
  ghost predicate Consistent(posts: map<int, Post>, ledger: Ledger)
  {
    && (forall id :: id in posts ==> posts[id].id == id && posts[id].points == Score(ledger, id))
    && (forall k :: k in ledger ==> k.postId in posts)
    && SignedVotes(ledger)
  }

  /** The post table after `points = points + delta` on post `id`. */
  function AddPoints(posts: map<int, Post>, id: int, delta: int): map<int, Post>
    requires id in posts
  {
    posts[id := posts[id].(points := posts[id].points + delta)]
  }

  /** Inserting a fresh vote and adding its value to its post keeps the table consistent. */
  lemma VotePreservesConsistency(posts: map<int, Post>, ledger: Ledger, k: VoteKey, v: int)
    requires Consistent(posts, ledger)
    requires k !in ledger && k.postId in posts
    requires v == 1 || v == -1
    ensures Consistent(AddPoints(posts, k.postId, v), ledger[k := v])
  {
    var posts', ledger' := AddPoints(posts, k.postId, v), ledger[k := v];
    forall id | id in posts'
      ensures posts'[id].id == id && posts'[id].points == Score(ledger', id)
    {
      ScoreInsert(ledger, k, v, id);
    }
  }

  class PostStore {
    /** The `post` table, keyed by id. */
    var posts: map<int, Post>
    /** The `updoot` table. */
    var ledger: Ledger

    ghost predicate Valid()
      reads this
    {
      Consistent(posts, ledger)
    }

    /** A store over existing tables that agree with each other. */
    constructor (posts: map<int, Post>, ledger: Ledger)
      requires Consistent(posts, ledger)
      ensures Valid() && this.posts == posts && this.ledger == ledger
    {
      this.posts := posts;
      this.ledger := ledger;
    }

    /**
     The `vote` mutation of user `userId`: one transaction that inserts the
     ledger entry and updates the post's points. The insert fails on the
     primary key when the user already voted on the post, and on the foreign
     key when the post does not exist; the transaction then changes nothing
     and the mutation fails (`ok` is false).
     */
    method Vote(userId: int, postId: int, value: int) returns (ok: bool)
      requires Valid()
      modifies this
      ensures Valid()
      ensures ok <==> VoteKey(userId, postId) !in old(ledger) && postId in old(posts)
      ensures ok ==> ledger == old(ledger)[VoteKey(userId, postId) := NormalizeVote(value)]
      ensures ok ==> posts == AddPoints(old(posts), postId, NormalizeVote(value))
      ensures !ok ==> ledger == old(ledger) && posts == old(posts)
    {
      var upDoot := NormalizeVote(value);
      var key := VoteKey(userId, postId);
      if key in ledger || postId !in posts {
        ok := false;
        return;
      }
      VotePreservesConsistency(posts, ledger, key, upDoot);
      ledger := ledger[key := upDoot];
      posts := AddPoints(posts, postId, upDoot);
      ok := true;
    }

    /**
     The `updatePost` mutation. A missing id gives null and changes nothing.
     Otherwise the title is written when one is given, and the record returned
     is the one read before the update, so it still carries the old title.
     */
    method UpdatePost(id: int, title: Option<string>) returns (r: Option<Post>)
      requires Valid()
      modifies this
      ensures Valid()
      ensures ledger == old(ledger)
      ensures id !in old(posts) ==> r == None && posts == old(posts)
      ensures id in old(posts) ==> r == Some(old(posts)[id])
      ensures id in old(posts) && title.Some? ==> posts == old(posts)[id := old(posts)[id].(title := title.value)]
      ensures title.None? ==> posts == old(posts)
    {
      if id !in posts {
        return None;
      }
      var post := posts[id];
      if title.Some? {
        posts := posts[id := posts[id].(title := title.value)];
      }
      r := Some(post);
    }
  }

  /**
   Voting a second time on the same post fails and leaves both tables as the
   first vote left them: the vote is counted once, whatever the second value.
   */
  method RepeatedVoteFails(store: PostStore, userId: int, postId: int, value: int, again: int)
    returns (first: bool, second: bool)
    requires store.Valid()
    modifies store
    ensures store.Valid()
    ensures first ==> !second
    ensures first ==> store.ledger == old(store.ledger)[VoteKey(userId, postId) := NormalizeVote(value)]
    ensures first ==> postId in old(store.posts) && store.posts == AddPoints(old(store.posts), postId, NormalizeVote(value))
  {
    first := store.Vote(userId, postId, value);
    second := store.Vote(userId, postId, again);
  }
}
