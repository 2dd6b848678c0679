/**
 * The `/api/feed` query: the viewer's own posts and those of everyone the viewer
 * follows, joined with the author's row, annotated with the like count and the
 * viewer's own like, newest first, at most one hundred rows.
 */
module FeedQuery {
  import opened Types
  import opened Sorting
  import opened Social

  /** The cap of the query's `LIMIT` clause. */
  const FeedLimit: nat := 100

  /** A row of the feed reply: the post, its author's username and avatar, its likes. */
  datatype FeedRow = FeedRow(post: Post, username: string, avatar: string, likes: nat, liked: bool)

  /** The `WHERE` clause: authored by the viewer or by one of the viewer's followees. */
  function Visible(relations: set<Edge>, viewer: Id, author: Id): (r: bool)
    ensures viewer == author ==> r
    ensures author != viewer ==> (r <==> (viewer, author) in relations)
  {
    author == viewer || (viewer, author) in relations
  }

  /** The posts the query selects, in table order: those passing the `WHERE` clause and the join with `users`. */
  function Eligible(users: map<Id, User>, relations: set<Edge>, posts: seq<Post>, viewer: Id): (r: seq<Post>)
    ensures forall p :: p in r <==> p in posts && p.userId in users && Visible(relations, viewer, p.userId)
    ensures |r| <= |posts|
  {
    if posts == [] then []
    else
      var p := posts[0];
      var rest := Eligible(users, relations, posts[1..], viewer);
      assert posts == [p] + posts[1..];
      if p.userId in users && Visible(relations, viewer, p.userId) then [p] + rest else rest
  }

  /** The query selects each stored row passing the join and the `WHERE` clause exactly as often
      as it is stored, and no other row. */
  lemma {:induction false} EligibleCounts(users: map<Id, User>, relations: set<Edge>, posts: seq<Post>, viewer: Id, p: Post)
    ensures multiset(Eligible(users, relations, posts, viewer))[p] ==
            if p.userId in users && Visible(relations, viewer, p.userId) then multiset(posts)[p] else 0
  {
    if posts != [] {
      assert posts == [posts[0]] + posts[1..];
      EligibleCounts(users, relations, posts[1..], viewer, p);
    }
  }

  /** The sort key for newest first: a later post has a smaller key. */
  function NewestFirst(p: Post): (r: int)
  {
    -p.createdAt
  }

  /** The selected posts, newest first, cut at the limit. */
  function FeedPosts(users: map<Id, User>, relations: set<Edge>, posts: seq<Post>, viewer: Id): (r: seq<Post>)
    ensures r <= SortBy(Eligible(users, relations, posts, viewer), NewestFirst)
  {
    Limit(SortBy(Eligible(users, relations, posts, viewer), NewestFirst), FeedLimit)
  }

  /** The columns the query adds to a post: the author's row and the two like subqueries. */
  function Annotate(users: map<Id, User>, likes: set<Edge>, viewer: Id, p: Post): (r: FeedRow)
    requires p.userId in users
    ensures r.post == p
    ensures r.username == users[p.userId].username && r.avatar == users[p.userId].avatar
    ensures r.likes == |RowsTo(likes, p.id)|
    ensures r.liked <==> (viewer, p.id) in likes
  {
    FeedRow(p, users[p.userId].username, users[p.userId].avatar,
            LikeCount(likes, p.id), (viewer, p.id) in likes)
  }

  function AnnotateAll(users: map<Id, User>, likes: set<Edge>, viewer: Id, ps: seq<Post>): (r: seq<FeedRow>)
    requires forall p :: p in ps ==> p.userId in users
    ensures |r| == |ps|
    ensures forall k :: 0 <= k < |ps| ==> r[k] == Annotate(users, likes, viewer, ps[k])
  {
    if ps == [] then []
    else [Annotate(users, likes, viewer, ps[0])] + AnnotateAll(users, likes, viewer, ps[1..])
  }

  /** The reply of `/api/feed` for `viewer`. */
  function Feed(users: map<Id, User>, relations: set<Edge>, posts: seq<Post>, likes: set<Edge>, viewer: Id)
    : (rows: seq<FeedRow>)
    ensures |rows| == |FeedPosts(users, relations, posts, viewer)|
    ensures forall k :: 0 <= k < |rows| ==> rows[k].post == FeedPosts(users, relations, posts, viewer)[k]
  {
    var ps := FeedPosts(users, relations, posts, viewer);
    var sorted := SortBy(Eligible(users, relations, posts, viewer), NewestFirst);
    assert forall p :: p in ps ==> p in sorted;
    assert forall p :: p in sorted ==> p in multiset(Eligible(users, relations, posts, viewer));
    AnnotateAll(users, likes, viewer, ps)
  }

  /** The posts of a sequence of rows. */
  function RowPosts(rows: seq<FeedRow>): (r: seq<Post>)
    ensures |r| == |rows|
    ensures forall k :: 0 <= k < |rows| ==> r[k] == rows[k].post
  {
    seq(|rows|, k requires 0 <= k < |rows| => rows[k].post)
  }

  lemma FeedRowPosts(users: map<Id, User>, relations: set<Edge>, posts: seq<Post>, likes: set<Edge>, viewer: Id)
    ensures RowPosts(Feed(users, relations, posts, likes, viewer)) == FeedPosts(users, relations, posts, viewer)
  {
  }

  /** At most one hundred rows; exactly as many as are eligible when that is fewer. */
  lemma FeedSize(users: map<Id, User>, relations: set<Edge>, posts: seq<Post>, likes: set<Edge>, viewer: Id)
    ensures var n := |Eligible(users, relations, posts, viewer)|;
            |Feed(users, relations, posts, likes, viewer)| == if n <= FeedLimit then n else FeedLimit
  {
  }

  /** The rows are in non-increasing `created_at` order. */
  lemma FeedNewestFirst(users: map<Id, User>, relations: set<Edge>, posts: seq<Post>, likes: set<Edge>, viewer: Id)
    ensures var rows := Feed(users, relations, posts, likes, viewer);
            forall i, j :: 0 <= i < j < |rows| ==> rows[i].post.createdAt >= rows[j].post.createdAt
  {
  }

  /** Every row is a stored post whose author exists and is the viewer or one of the viewer's followees. */
  lemma FeedRowsVisible(users: map<Id, User>, relations: set<Edge>, posts: seq<Post>, likes: set<Edge>, viewer: Id)
    ensures var rows := Feed(users, relations, posts, likes, viewer);
            forall k :: 0 <= k < |rows| ==>
              rows[k].post in posts && rows[k].post.userId in users &&
              (rows[k].post.userId == viewer || (viewer, rows[k].post.userId) in relations)
  {
    var rows := Feed(users, relations, posts, likes, viewer);
    var eligible := Eligible(users, relations, posts, viewer);
    var sorted := SortBy(eligible, NewestFirst);
    forall k | 0 <= k < |rows|
      ensures rows[k].post in eligible
    {
      assert rows[k].post == sorted[k];
      assert sorted[k] in multiset(eligible);
    }
  }

  /** The viewer's own posts are selected whatever `relations` holds. */
  lemma OwnPostsEligible(users: map<Id, User>, relations: set<Edge>, posts: seq<Post>, viewer: Id, p: Post)
    requires p in posts && p.userId == viewer && viewer in users
    ensures p in Eligible(users, relations, posts, viewer)
    ensures p in Eligible(users, {}, posts, viewer)
  {
  }

  /** The rows are the selected posts, each once, whenever there are no more than one hundred of them. */
  lemma FeedComplete(users: map<Id, User>, relations: set<Edge>, posts: seq<Post>, likes: set<Edge>, viewer: Id)
    requires |Eligible(users, relations, posts, viewer)| <= FeedLimit
    ensures multiset(RowPosts(Feed(users, relations, posts, likes, viewer)))
         == multiset(Eligible(users, relations, posts, viewer))
  {
    FeedRowPosts(users, relations, posts, likes, viewer);
  }

  /** Each row is one of the selected posts, and no post appears more often than it was selected. */
  lemma FeedSubset(users: map<Id, User>, relations: set<Edge>, posts: seq<Post>, likes: set<Edge>, viewer: Id)
    ensures multiset(RowPosts(Feed(users, relations, posts, likes, viewer)))
         <= multiset(Eligible(users, relations, posts, viewer))
  {
    FeedRowPosts(users, relations, posts, likes, viewer);
    var sorted := SortBy(Eligible(users, relations, posts, viewer), NewestFirst);
    var ps := FeedPosts(users, relations, posts, viewer);
    assert sorted == ps + sorted[|ps|..];
    assert multiset(sorted) == multiset(ps) + multiset(sorted[|ps|..]);
  }

  /** A selected post cut off by the limit is no newer than any row that was kept. */
  lemma FeedKeepsNewest(users: map<Id, User>, relations: set<Edge>, posts: seq<Post>, likes: set<Edge>,
                        viewer: Id, p: Post)
    requires p in Eligible(users, relations, posts, viewer)
    requires p !in RowPosts(Feed(users, relations, posts, likes, viewer))
    ensures var rows := Feed(users, relations, posts, likes, viewer);
            forall k :: 0 <= k < |rows| ==> p.createdAt <= rows[k].post.createdAt
  {
    var rows := Feed(users, relations, posts, likes, viewer);
    var sorted := SortBy(Eligible(users, relations, posts, viewer), NewestFirst);
    FeedRowPosts(users, relations, posts, likes, viewer);
    assert p in multiset(sorted);
    LimitKeepsSmallest(sorted, NewestFirst, FeedLimit, p);
    forall k | 0 <= k < |rows| ensures p.createdAt <= rows[k].post.createdAt {
      assert rows[k].post == Limit(sorted, FeedLimit)[k];
    }
  }

  /** Each row's `likes` counts the like rows of its post, and `liked` is the viewer's own like. */
  lemma FeedAnnotations(users: map<Id, User>, relations: set<Edge>, posts: seq<Post>, likes: set<Edge>, viewer: Id)
    ensures var rows := Feed(users, relations, posts, likes, viewer);
            forall k :: 0 <= k < |rows| ==>
              rows[k].likes == LikeCount(likes, rows[k].post.id) &&
              (rows[k].liked <==> (viewer, rows[k].post.id) in likes) &&
              rows[k].post.userId in users &&
              rows[k].username == users[rows[k].post.userId].username &&
              rows[k].avatar == users[rows[k].post.userId].avatar
  {
    FeedRowsVisible(users, relations, posts, likes, viewer);
  }

  /** After `me` follows an existing `target`, the target's posts are visible to `me`, and nothing else changes. */
  lemma FollowShowsPosts(relations: set<Edge>, users: map<Id, User>, me: Id, target: Id, author: Id)
    requires me in users && target in users
    ensures Visible(WithEdge(relations, users, me, target), me, author)
        <==> Visible(relations, me, author) || author == target
  {
  }

  /** After `me` unfollows `target`, the target's posts are hidden unless they are `me`'s own. */
  lemma UnfollowHidesPosts(relations: set<Edge>, me: Id, target: Id, author: Id)
    ensures Visible(WithoutPair(relations, me, target), me, author)
        <==> Visible(relations, me, author) && (author != target || author == me)
  {
  }
}
