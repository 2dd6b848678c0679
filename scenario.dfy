/**
 * A session against the store from empty: two users register, the first posts an
 * image, the second follows the first, and the second's feed is read.
 */
module Scenario {
  import opened Types
  import opened Media
  import opened Social
  import opened FeedQuery
  import Server

  /** The tables after the session's writes. */
  function Users(): map<Id, User>
  {
    map["alice-id" := User("alice", "", "hash-a"), "bob-id" := User("bob", "", "hash-b")]
  }

  function AlicePost(): Post
  {
    Post("post-1", "alice-id", "", Image, MediaUrl("f.png"), 1000)
  }

  /** Bob's feed holds Alice's one post, which nobody has liked. */
  lemma BobSeesAlice()
    ensures var rows := Feed(Users(), {("bob-id", "alice-id")}, [AlicePost()], {}, "bob-id");
            |rows| == 1 && rows[0].post == AlicePost() && rows[0].username == "alice" &&
            rows[0].likes == 0 && !rows[0].liked
  {
  }

  /** Alice and Bob register, Alice posts an image without a caption, Bob follows Alice. */
  method Session() returns (store: Server.Store)
    ensures fresh(store)
    ensures store.users == Users() && store.posts == [AlicePost()]
    ensures store.relations == {("bob-id", "alice-id")} && store.likes == {}
  {
    store := new Server.Store();
    var a := store.Register(Some("alice"), Some("pw-a"), "alice-id", "hash-a");
    var b := store.Register(Some("bob"), Some("pw-b"), "bob-id", "hash-b");
    assert store.users == Users();
    assert MediaTypeOf(Some("image/png")) == Image by {
      assert "image/png"[..5] != "video" by { assert "image/png"[0] == 'i'; }
    }
    var p := store.CreatePost("alice-id", None, Some(Upload("f.png", Some("image/png"))), "post-1", 1000);
    assert store.posts == [AlicePost()];
    var f := store.Follow("bob-id", "alice-id");
  }

  /** Bob's feed after the session. */
  method FollowThenFeed() returns (rows: seq<FeedRow>)
    ensures |rows| == 1
    ensures rows[0].post.userId == "alice-id" && rows[0].username == "alice"
    ensures rows[0].post.mediaType == Image && rows[0].post.caption == ""
    ensures rows[0].likes == 0 && !rows[0].liked
  {
    var store := Session();
    rows := Feed(store.users, store.relations, store.posts, store.likes, "bob-id");
    BobSeesAlice();
  }
}
