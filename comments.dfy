/**
 * The `/api/posts/:id/comments` query: the comments on one post joined with their
 * author's row, oldest first.
 */
module Comments {
  import opened Types
  import opened Sorting

  /** A row of the comment list: the comment with its author's username and avatar. */
  datatype CommentRow = CommentRow(comment: Comment, username: string, avatar: string)

  /** The comments the query selects, in table order: those on `postId` whose author exists. */
  function OnPost(users: map<Id, User>, comments: seq<Comment>, postId: Id): (r: seq<Comment>)
    ensures forall c :: c in r <==> c in comments && c.postId == postId && c.userId in users
  {
    if comments == [] then []
    else
      var c := comments[0];
      var rest := OnPost(users, comments[1..], postId);
      assert comments == [c] + comments[1..];
      if c.postId == postId && c.userId in users then [c] + rest else rest
  }

  /** The query selects each stored comment on the post whose author exists exactly as often
      as it is stored, and no other comment. */
  lemma {:induction false} OnPostCounts(users: map<Id, User>, comments: seq<Comment>, postId: Id, c: Comment)
    ensures multiset(OnPost(users, comments, postId))[c] ==
            if c.postId == postId && c.userId in users then multiset(comments)[c] else 0
  {
    if comments != [] {
      assert comments == [comments[0]] + comments[1..];
      OnPostCounts(users, comments[1..], postId, c);
    }
  }

  /** The sort key for oldest first: an earlier comment has a smaller key. */
  function OldestFirst(c: Comment): (r: int)
  {
    c.createdAt
  }

  function WithAuthors(users: map<Id, User>, cs: seq<Comment>): (r: seq<CommentRow>)
    requires forall c :: c in cs ==> c.userId in users
    ensures |r| == |cs|
    ensures forall k :: 0 <= k < |cs| ==>
              r[k] == CommentRow(cs[k], users[cs[k].userId].username, users[cs[k].userId].avatar)
  {
    if cs == [] then []
    else [CommentRow(cs[0], users[cs[0].userId].username, users[cs[0].userId].avatar)]
         + WithAuthors(users, cs[1..])
  }

  /** The reply of `/api/posts/:id/comments` for `postId`. */
  function ListComments(users: map<Id, User>, comments: seq<Comment>, postId: Id): (rows: seq<CommentRow>)
    ensures |rows| == |OnPost(users, comments, postId)|
    ensures forall k :: 0 <= k < |rows| ==>
              rows[k].comment == SortBy(OnPost(users, comments, postId), OldestFirst)[k]
  {
    var sorted := SortBy(OnPost(users, comments, postId), OldestFirst);
    forall c | c in sorted ensures c.userId in users {
      assert c in multiset(OnPost(users, comments, postId));
    }
    WithAuthors(users, sorted)
  }

  /** The comments of a sequence of rows. */
  function RowComments(rows: seq<CommentRow>): (r: seq<Comment>)
    ensures |r| == |rows|
    ensures forall k :: 0 <= k < |rows| ==> r[k] == rows[k].comment
  {
    seq(|rows|, k requires 0 <= k < |rows| => rows[k].comment)
  }

  /** The rows are in non-decreasing `created_at` order. */
  lemma CommentsOldestFirst(users: map<Id, User>, comments: seq<Comment>, postId: Id)
    ensures var rows := ListComments(users, comments, postId);
            forall i, j :: 0 <= i < j < |rows| ==> rows[i].comment.createdAt <= rows[j].comment.createdAt
  {
  }

  /** The rows are exactly the stored comments on the post whose author exists, each once,
      carrying their author's username and avatar. */
  lemma CommentsOfPost(users: map<Id, User>, comments: seq<Comment>, postId: Id)
    ensures var rows := ListComments(users, comments, postId);
            multiset(RowComments(rows)) == multiset(OnPost(users, comments, postId)) &&
            forall k :: 0 <= k < |rows| ==>
              rows[k].comment in comments && rows[k].comment.postId == postId &&
              rows[k].comment.userId in users &&
              rows[k].username == users[rows[k].comment.userId].username &&
              rows[k].avatar == users[rows[k].comment.userId].avatar
  {
    var rows := ListComments(users, comments, postId);
    var sorted := SortBy(OnPost(users, comments, postId), OldestFirst);
    assert RowComments(rows) == sorted;
    forall k | 0 <= k < |rows| ensures rows[k].comment in OnPost(users, comments, postId) {
      assert sorted[k] in multiset(OnPost(users, comments, postId));
    }
  }
}
