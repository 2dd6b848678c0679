/**
 * The Luno store: the six SQLite tables held in memory, together with the state
 * of the direct-message socket server, and the handlers that change them.
 *
 * Ids (`uuidv4()`), timestamps (`Date.now()`), password hashes (`bcrypt.hash`)
 * and socket ids are parameters of the handlers; token verification and password
 * comparison are function parameters. Every insert fails exactly where SQLite
 * would refuse it: a duplicate primary key, a missing referenced row
 * (foreign keys are enforced) or a NULL in a `NOT NULL` column.
 */
module Server {
  import opened Types
  import opened Social
  import opened Media

  /** The ids in the `posts` table. */
  function PostIds(posts: seq<Post>): (r: set<Id>)
    ensures forall id :: id in r <==> exists k :: 0 <= k < |posts| && posts[k].id == id
  {
    set p | p in posts :: p.id
  }

  function CommentIds(comments: seq<Comment>): (r: set<Id>)
    ensures forall id :: id in r <==> exists k :: 0 <= k < |comments| && comments[k].id == id
  {
    set c | c in comments :: c.id
  }

  function MessageIds(messages: seq<Message>): (r: set<Id>)
    ensures forall id :: id in r <==> exists k :: 0 <= k < |messages| && messages[k].id == id
  {
    set m | m in messages :: m.id
  }

  /** No stored user has this username (the `UNIQUE` constraint on `users.username`). */
  predicate UsernameFree(users: map<Id, User>, username: string)
  {
    forall id :: id in users ==> users[id].username != username
  }

  /** The sockets `io.to(a).to(b)` reaches: each socket in room `a` or room `b`, once. */
  function Recipients(rooms: map<SocketId, set<string>>, a: string, b: string): (r: set<SocketId>)
    ensures forall s :: s in r <==> s in rooms && (a in rooms[s] || b in rooms[s])
  {
    set s | s in rooms && (a in rooms[s] || b in rooms[s])
  }

  /** `users`: the id is the map's key; `username` is `UNIQUE`. */
  ghost predicate UsersValid(users: map<Id, User>)
  {
    forall a, b :: a in users && b in users && users[a].username == users[b].username ==> a == b
  }

  /** `relations`: both ends exist, and nobody follows themselves. */
  ghost predicate RelationsValid(relations: set<Edge>, users: map<Id, User>)
  {
    forall e :: e in relations ==> e.0 in users && e.1 in users && e.0 != e.1
  }

  /** `likes`: the user and the post exist. */
  ghost predicate LikesValid(likes: set<Edge>, users: map<Id, User>, posts: seq<Post>)
  {
    forall e :: e in likes ==> e.0 in users && e.1 in PostIds(posts)
  }

  /** `posts`: unique ids, existing authors. */
  ghost predicate PostsValid(posts: seq<Post>, users: map<Id, User>)
  {
    (forall i, j :: 0 <= i < j < |posts| ==> posts[i].id != posts[j].id) &&
    (forall k :: 0 <= k < |posts| ==> posts[k].userId in users)
  }

  /** `comments`: unique ids, existing post and author. */
  ghost predicate CommentsValid(comments: seq<Comment>, posts: seq<Post>, users: map<Id, User>)
  {
    (forall i, j :: 0 <= i < j < |comments| ==> comments[i].id != comments[j].id) &&
    (forall k :: 0 <= k < |comments| ==> comments[k].postId in PostIds(posts) && comments[k].userId in users)
  }

  /** `messages`: unique ids, existing sender and recipient. */
  ghost predicate MessagesValid(messages: seq<Message>, users: map<Id, User>)
  {
    (forall i, j :: 0 <= i < j < |messages| ==> messages[i].id != messages[j].id) &&
    (forall k :: 0 <= k < |messages| ==> messages[k].fromId in users && messages[k].toId in users)
  }

  /** Every connected socket sits in the room named by its own id and in the room of the user it is bound to. */
  ghost predicate SocketsValid(sockets: map<SocketId, Option<Claims>>, rooms: map<SocketId, set<string>>)
  {
    sockets.Keys == rooms.Keys &&
    (forall s :: s in rooms ==> s in rooms[s]) &&
    (forall s :: s in sockets && sockets[s].Some? ==> s in rooms && sockets[s].value.id in rooms[s])
  }

  /** What the login route answers: the user's id, username and avatar (and a token signed over the first two). */
  datatype Session = Session(id: Id, username: string, avatar: string)

  /** The socket's reply to an `auth` event. */
  datatype AuthEvent = Authed(id: Id, username: string) | AuthFailed

  /** A `dm` event as emitted, with the sockets it is emitted to. */
  datatype Delivery = Delivery(message: Message, targets: set<SocketId>)

  class Store {
    var users: map<Id, User>
    var relations: set<Edge>
    var likes: set<Edge>
    var posts: seq<Post>
    var comments: seq<Comment>
    var messages: seq<Message>
    /** `socket.data.user` of every connected socket. */
    var sockets: map<SocketId, Option<Claims>>
    /** The rooms every connected socket has joined. */
    var rooms: map<SocketId, set<string>>

    /** The keys and foreign keys of the schema, and the bookkeeping of the socket server. */
    ghost predicate Valid()
      reads this
      ensures Valid() ==> forall e :: e in relations ==> e.0 != e.1
      ensures Valid() ==> forall e :: e in likes ==> e.0 in users && exists k :: 0 <= k < |posts| && posts[k].id == e.1
      ensures Valid() ==> forall a, b :: a in users && b in users && a != b ==> users[a].username != users[b].username
    {
      UsersValid(users) && RelationsValid(relations, users) && LikesValid(likes, users, posts) &&
      PostsValid(posts, users) && CommentsValid(comments, posts, users) && MessagesValid(messages, users) &&
      SocketsValid(sockets, rooms)
    }

    constructor ()
      ensures Valid()
      ensures users == map[] && relations == {} && likes == {}
      ensures posts == [] && comments == [] && messages == []
      ensures sockets == map[] && rooms == map[]
    {
      users, relations, likes := map[], {}, {};
      posts, comments, messages := [], [], [];
      sockets, rooms := map[], map[];
    }

    /** `POST /api/auth/register`. `hash` is what `bcrypt.hash(password)` produced. */
    method Register(username: Option<string>, password: Option<string>, id: Id, hash: string)
      returns (r: Result<Claims>)
      requires Valid()
      modifies this`users
      ensures Valid()
      ensures !Truthy(username) || !Truthy(password) ==> r == Err(MissingCredentials) && users == old(users)
      ensures Truthy(username) && Truthy(password) && (id in old(users) || !UsernameFree(old(users), username.value))
              ==> r == Err(UsernameTaken) && users == old(users)
      ensures Truthy(username) && Truthy(password) && id !in old(users) && UsernameFree(old(users), username.value)
              ==> r == Ok(Claims(id, username.value)) && users == old(users)[id := User(username.value, "", hash)]
    {
      if !Truthy(username) || !Truthy(password) {
        return Err(MissingCredentials);
      }
      if id in users || !UsernameFree(users, username.value) {
        return Err(UsernameTaken);
      }
      users := users[id := User(username.value, "", hash)];
      r := Ok(Claims(id, username.value));
    }

    /** `POST /api/auth/login`. `compare` stands for `bcrypt.compare(password, hash)`. */
    method Login(username: string, password: string, compare: (string, string) -> bool)
      returns (r: Result<Session>)
      requires Valid()
      ensures r.Err? ==> r.error == InvalidCredentials
      ensures r.Ok? <==> exists id :: id in users && users[id].username == username && compare(password, users[id].hash)
      ensures r.Ok? ==> r.value.id in users && r.value.username == username &&
                        users[r.value.id].username == username &&
                        r.value.avatar == users[r.value.id].avatar &&
                        compare(password, users[r.value.id].hash)
    {
      if id :| id in users && users[id].username == username {
        if compare(password, users[id].hash) {
          r := Ok(Session(id, username, users[id].avatar));
        } else {
          r := Err(InvalidCredentials);
        }
      } else {
        r := Err(InvalidCredentials);
      }
    }

    /** `POST /api/users/avatar`: answers with the new avatar path even when no row was updated.
        Without an upload the handler throws before writing (`NoFile`). */
    method SetAvatar(me: Id, file: Option<Upload>) returns (r: Result<string>)
      requires Valid()
      modifies this`users
      ensures Valid()
      ensures file.None? ==> r == Err(NoFile) && users == old(users)
      ensures file.Some? ==> r == Ok(MediaUrl(file.value.filename))
      ensures file.Some? && me in old(users) ==>
                users == old(users)[me := old(users)[me].(avatar := MediaUrl(file.value.filename))]
      ensures file.Some? && me !in old(users) ==> users == old(users)
    {
      if file.None? {
        return Err(NoFile);
      }
      var url := MediaUrl(file.value.filename);
      if me in users {
        users := users[me := users[me].(avatar := url)];
      }
      r := Ok(url);
    }

    /** `POST /api/users/:id/follow`. */
    method Follow(me: Id, target: Id) returns (r: Outcome)
      requires Valid()
      modifies this`relations
      ensures Valid()
      ensures me == target ==> r == Fail(CannotFollowSelf) && relations == old(relations)
      ensures me != target ==> r == Pass && relations == WithEdge(old(relations), users, me, target)
    {
      if me == target {
        return Fail(CannotFollowSelf);
      }
      // the insert fails on an existing pair or a missing user; the handler answers ok either way
      relations := WithEdge(relations, users, me, target);
      r := Pass;
    }

    /** `POST /api/users/:id/unfollow`. */
    method Unfollow(me: Id, target: Id) returns (r: Outcome)
      requires Valid()
      modifies this`relations
      ensures Valid()
      ensures r == Pass && relations == WithoutPair(old(relations), me, target)
    {
      relations := WithoutPair(relations, me, target);
      r := Pass;
    }

    /** `POST /api/posts`. Without an upload the handler throws before the insert (`NoFile`). */
    method CreatePost(me: Id, caption: Option<string>, file: Option<Upload>, id: Id, created: int)
      returns (r: Result<Post>)
      requires Valid()
      modifies this`posts
      ensures Valid()
      ensures file.None? ==> r == Err(NoFile) && posts == old(posts)
      ensures file.Some? && (id in PostIds(old(posts)) || me !in users)
              ==> r == Err(StoreFailed) && posts == old(posts)
      ensures file.Some? && id !in PostIds(old(posts)) && me in users ==>
                var p := Post(id, me, OrEmpty(caption), MediaTypeOf(file.value.mimetype),
                              MediaUrl(file.value.filename), created);
                r == Ok(p) && posts == old(posts) + [p]
      ensures r.Ok? ==> PostCount(posts, me) == PostCount(old(posts), me) + 1
      ensures forall u :: u != me ==> PostCount(posts, u) == PostCount(old(posts), u)
    {
      if file.None? {
        return Err(NoFile);
      }
      if id in PostIds(posts) || me !in users {
        return Err(StoreFailed);
      }
      var p := Post(id, me, OrEmpty(caption), MediaTypeOf(file.value.mimetype),
                    MediaUrl(file.value.filename), created);
      assert PostIds(posts + [p]) == PostIds(posts) + {id};
      forall u ensures PostCount(posts + [p], u) == PostCount(posts, u) + (if u == me then 1 else 0) {
        PostCountAppend(posts, p, u);
      }
      posts := posts + [p];
      r := Ok(p);
    }

    /** `POST /api/posts/:id/like`. */
    method Like(me: Id, postId: Id) returns (r: Outcome)
      requires Valid()
      modifies this`likes
      ensures Valid()
      ensures r == Pass && likes == WithLike(old(likes), users, PostIds(posts), me, postId)
    {
      // the insert fails on an existing pair or a missing user or post; the failure is swallowed
      likes := WithLike(likes, users, PostIds(posts), me, postId);
      r := Pass;
    }

    /** `POST /api/posts/:id/unlike`. */
    method Unlike(me: Id, postId: Id) returns (r: Outcome)
      requires Valid()
      modifies this`likes
      ensures Valid()
      ensures r == Pass && likes == WithoutPair(old(likes), me, postId)
    {
      likes := WithoutPair(likes, me, postId);
      r := Pass;
    }

    /** `POST /api/posts/:id/comment`. */
    method AddComment(me: Id, postId: Id, content: Option<string>, id: Id, created: int)
      returns (r: Result<Comment>)
      requires Valid()
      modifies this`comments
      ensures Valid()
      ensures id in CommentIds(old(comments)) || postId !in PostIds(posts) || me !in users
              ==> r == Err(StoreFailed) && comments == old(comments)
      ensures id !in CommentIds(old(comments)) && postId in PostIds(posts) && me in users ==>
                var c := Comment(id, postId, me, OrEmpty(content), created);
                r == Ok(c) && comments == old(comments) + [c]
    {
      if id in CommentIds(comments) || postId !in PostIds(posts) || me !in users {
        return Err(StoreFailed);
      }
      var c := Comment(id, postId, me, OrEmpty(content), created);
      comments := comments + [c];
      r := Ok(c);
    }

    /** A socket connects: socket.io puts it in the room named by its own id; no user is bound yet. */
    method Connect(sid: SocketId)
      requires Valid()
      requires sid !in sockets
      modifies this`sockets, this`rooms
      ensures Valid()
      ensures sockets == old(sockets)[sid := None]
      ensures rooms == old(rooms)[sid := {sid}]
    {
      sockets := sockets[sid := None];
      rooms := rooms[sid := {sid}];
    }

    /** A socket disconnects: its binding and its room memberships go away. */
    method Disconnect(sid: SocketId)
      requires Valid()
      modifies this`sockets, this`rooms
      ensures Valid()
      ensures sockets == old(sockets) - {sid}
      ensures rooms == old(rooms) - {sid}
    {
      sockets := sockets - {sid};
      rooms := rooms - {sid};
    }

    /** The socket's `auth` event. `verify` stands for `jwt.verify`, `None` for a token it rejects. */
    method SocketAuth(sid: SocketId, token: string, verify: string -> Option<Claims>)
      returns (ev: AuthEvent)
      requires Valid()
      requires sid in sockets
      modifies this`sockets, this`rooms
      ensures Valid()
      ensures verify(token).None? ==>
                ev == AuthFailed && sockets == old(sockets) && rooms == old(rooms)
      ensures verify(token).Some? ==>
                var c := verify(token).value;
                ev == Authed(c.id, c.username) &&
                sockets == old(sockets)[sid := Some(c)] &&
                // the rooms joined before stay joined
                rooms == old(rooms)[sid := old(rooms)[sid] + {c.id}]
    {
      match verify(token)
      case None =>
        ev := AuthFailed;
      case Some(c) =>
        sockets := sockets[sid := Some(c)];
        rooms := rooms[sid := rooms[sid] + {c.id}];
        ev := Authed(c.id, c.username);
    }

    /** The socket's `dm` event: store the message, then emit it to the recipient's and the sender's rooms. */
    method SendDm(sid: SocketId, to: Option<Id>, content: Option<string>, id: Id, created: int)
      returns (d: Option<Delivery>)
      requires Valid()
      requires sid in sockets
      modifies this`messages
      ensures Valid()
      // an unauthenticated socket is ignored
      ensures sockets[sid].None? ==> d.None? && messages == old(messages)
      // an insert that fails emits nothing
      ensures sockets[sid].Some? &&
              (to.None? || content.None? || id in MessageIds(old(messages)) ||
               sockets[sid].value.id !in users || to.value !in users)
              ==> d.None? && messages == old(messages)
      // otherwise exactly one message is stored, from the bound user, and then emitted
      ensures sockets[sid].Some? && to.Some? && content.Some? && id !in MessageIds(old(messages)) &&
              sockets[sid].value.id in users && to.value in users ==>
                var from := sockets[sid].value.id;
                var m := Message(id, from, to.value, content.value, created);
                messages == old(messages) + [m] &&
                d == Some(Delivery(m, Recipients(rooms, to.value, from)))
      // every emission reaches connected sockets only, among them the sender and every socket bound to either party
      ensures d.Some? ==>
                d.value.targets <= sockets.Keys && sid in d.value.targets &&
                forall s :: s in sockets && sockets[s].Some? &&
                            (sockets[s].value.id == d.value.message.toId ||
                             sockets[s].value.id == d.value.message.fromId)
                            ==> s in d.value.targets
    {
      match sockets[sid]
      case None =>
        d := None;
      case Some(user) =>
        if to.None? || content.None? || id in MessageIds(messages) || user.id !in users || to.value !in users {
          d := None;
        } else {
          var m := Message(id, user.id, to.value, content.value, created);
          messages := messages + [m];
          d := Some(Delivery(m, Recipients(rooms, to.value, user.id)));
        }
    }
  }
}
