/**
 * The `relations` and `likes` tables as sets of pairs, and the counts read from them.
 *
 * Both tables have a composite primary key, so a second insert of the same pair
 * fails and leaves one row; both have foreign keys (`PRAGMA foreign_keys = ON`),
 * so an insert naming an unknown user or post fails and adds nothing. The follow
 * and like handlers swallow either failure, so the table afterwards is the old
 * one with the pair added exactly when both ends exist.
 */
module Social {
  import opened Types

  /** `relations` after the follow insert of `(me, target)`. */
  function WithEdge(relations: set<Edge>, users: map<Id, User>, me: Id, target: Id): (r: set<Edge>)
    ensures (me, target) in r <==> (me, target) in relations || (me in users && target in users)
    ensures forall e :: e in r && e != (me, target) ==> e in relations
    ensures relations <= r
  {
    if me in users && target in users then relations + {(me, target)} else relations
  }

  /** `likes` after the like insert of `(me, postId)`; `postIds` are the ids in `posts`. */
  function WithLike(likes: set<Edge>, users: map<Id, User>, postIds: set<Id>, me: Id, postId: Id): (r: set<Edge>)
    ensures (me, postId) in r <==> (me, postId) in likes || (me in users && postId in postIds)
    ensures forall e :: e in r && e != (me, postId) ==> e in likes
    ensures likes <= r
  {
    if me in users && postId in postIds then likes + {(me, postId)} else likes
  }

  /** A pair table after the delete of `(a, b)`: unfollow on `relations`, unlike on `likes`.
      A delete of a missing pair changes nothing and is not an error. */
  function WithoutPair(table: set<Edge>, a: Id, b: Id): (r: set<Edge>)
    ensures (a, b) !in r
    ensures forall e :: e != (a, b) ==> (e in r <==> e in table)
  {
    table - {(a, b)}
  }

  /** The rows of a pair table whose second column is `id`: the followers of a user in
      `relations`, the likes of a post in `likes`. */
  function RowsTo(table: set<Edge>, id: Id): (r: set<Edge>)
    ensures forall e :: e in r <==> e in table && e.1 == id
  {
    set e | e in table && e.1 == id
  }

  /** The rows of a pair table whose first column is `id`: whom a user follows, in `relations`. */
  function RowsFrom(table: set<Edge>, id: Id): (r: set<Edge>)
    ensures forall e :: e in r <==> e in table && e.0 == id
  {
    set e | e in table && e.0 == id
  }

  /** The number of rows of `likes` for `postId`, which the feed reports per post.
      It is zero exactly when nobody likes the post. */
  function LikeCount(likes: set<Edge>, postId: Id): (r: nat)
    ensures r == 0 <==> forall u :: (u, postId) !in likes
  {
    |RowsTo(likes, postId)|
  }

  /** The number of posts by `user`. */
  function PostCount(posts: seq<Post>, user: Id): (r: nat)
    ensures r <= |posts|
    ensures r == 0 <==> forall k :: 0 <= k < |posts| ==> posts[k].userId != user
  {
    if posts == [] then 0
    else (if posts[0].userId == user then 1 else 0) + PostCount(posts[1..], user)
  }

  /** Appending a post adds one to its author's count and leaves every other user's as it was. */
  lemma {:induction false} PostCountAppend(posts: seq<Post>, p: Post, user: Id)
    ensures PostCount(posts + [p], user) == PostCount(posts, user) + (if p.userId == user then 1 else 0)
  {
    if posts != [] {
      assert (posts + [p])[1..] == posts[1..] + [p];
      PostCountAppend(posts[1..], p, user);
    }
  }

  /** The `stats` part of the profile reply. */
  datatype Stats = Stats(followers: nat, following: nat, posts: nat)

  /** The profile statistics of `/api/users/me`. */
  function ProfileStats(relations: set<Edge>, posts: seq<Post>, me: Id): (r: Stats)
    ensures r.followers == |RowsTo(relations, me)|
    ensures r.following == |RowsFrom(relations, me)|
    ensures r.posts == PostCount(posts, me)
  {
    Stats(|RowsTo(relations, me)|, |RowsFrom(relations, me)|, PostCount(posts, me))
  }

  /** The `SELECT id, username, avatar` part of the profile reply. */
  datatype PublicUser = PublicUser(id: Id, username: string, avatar: string)

  /** The profile reply: the caller's row, when there is one, spread together with the stats. */
  datatype Profile = Profile(user: Option<PublicUser>, stats: Stats)

  /** `/api/users/me`: the caller's row without the password hash, and the caller's counts. */
  function ProfileOf(users: map<Id, User>, relations: set<Edge>, posts: seq<Post>, me: Id): (r: Profile)
    ensures r.user.Some? <==> me in users
    ensures r.user.Some? ==> r.user.value == PublicUser(me, users[me].username, users[me].avatar)
    ensures r.stats.followers == |RowsTo(relations, me)|
    ensures r.stats.following == |RowsFrom(relations, me)|
    ensures r.stats.posts == PostCount(posts, me)
  {
    Profile(if me in users then Some(PublicUser(me, users[me].username, users[me].avatar)) else None,
            ProfileStats(relations, posts, me))
  }

  /** Following twice is following once. */
  lemma WithEdgeIdempotent(relations: set<Edge>, users: map<Id, User>, me: Id, target: Id)
    ensures WithEdge(WithEdge(relations, users, me, target), users, me, target)
         == WithEdge(relations, users, me, target)
  {
  }

  /** A user who had no followers has exactly one after someone follows them twice. */
  lemma FollowTwiceOneFollower(relations: set<Edge>, users: map<Id, User>, me: Id, target: Id)
    requires me in users && target in users
    requires RowsTo(relations, target) == {}
    ensures |RowsTo(WithEdge(WithEdge(relations, users, me, target), users, me, target), target)| == 1
  {
    var r := WithEdge(WithEdge(relations, users, me, target), users, me, target);
    assert RowsTo(r, target) == {(me, target)};
  }

  /** Following an unknown user adds no edge. */
  lemma FollowUnknownUser(relations: set<Edge>, users: map<Id, User>, me: Id, target: Id)
    requires target !in users
    ensures WithEdge(relations, users, me, target) == relations
  {
  }

  /** Following `target` adds one to `target`'s followers and to `me`'s following, unless already followed. */
  lemma FollowCounts(relations: set<Edge>, users: map<Id, User>, me: Id, target: Id)
    requires me in users && target in users
    requires (me, target) !in relations
    ensures |RowsTo(WithEdge(relations, users, me, target), target)| == |RowsTo(relations, target)| + 1
    ensures |RowsFrom(WithEdge(relations, users, me, target), me)| == |RowsFrom(relations, me)| + 1
  {
    var r := WithEdge(relations, users, me, target);
    assert RowsTo(r, target) == RowsTo(relations, target) + {(me, target)};
    assert RowsFrom(r, me) == RowsFrom(relations, me) + {(me, target)};
  }

  /** Unfollowing undoes a follow of a pair that was not there. */
  lemma UnfollowUndoesFollow(relations: set<Edge>, users: map<Id, User>, me: Id, target: Id)
    requires (me, target) !in relations
    ensures WithoutPair(WithEdge(relations, users, me, target), me, target) == relations
  {
  }

  /** Like, unlike, like on one pair leaves a single row for it: one more than the other users' likes. */
  lemma LikeUnlikeLike(likes: set<Edge>, users: map<Id, User>, postIds: set<Id>, me: Id, postId: Id)
    requires me in users && postId in postIds
    ensures var after := WithLike(WithoutPair(WithLike(likes, users, postIds, me, postId), me, postId),
                                  users, postIds, me, postId);
            LikeCount(after, postId) == LikeCount(WithoutPair(likes, me, postId), postId) + 1
  {
    var after := WithLike(WithoutPair(WithLike(likes, users, postIds, me, postId), me, postId),
                          users, postIds, me, postId);
    var others := WithoutPair(likes, me, postId);
    assert after == others + {(me, postId)};
    assert RowsTo(after, postId) == RowsTo(others, postId) + {(me, postId)};
  }

  /** On a post nobody else liked, like, unlike, like gives a like count of one, not two. */
  lemma LikeUnlikeLikeCountsOne(likes: set<Edge>, users: map<Id, User>, postIds: set<Id>, me: Id, postId: Id)
    requires me in users && postId in postIds
    requires forall e :: e in likes ==> e.1 != postId || e.0 == me
    ensures LikeCount(WithLike(WithoutPair(WithLike(likes, users, postIds, me, postId), me, postId),
                               users, postIds, me, postId), postId) == 1
  {
    LikeUnlikeLike(likes, users, postIds, me, postId);
    assert RowsTo(WithoutPair(likes, me, postId), postId) == {};
  }
}
