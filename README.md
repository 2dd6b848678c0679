# Luno social backend — a Dafny model of its data layer

Luno is a small social-media server: accounts, image and video posts, follow
relations, likes, comments and a socket-based direct-message channel, all kept in
an SQLite database. This project models the data layer of `server.js`: the six
tables as an in-memory store, the route and socket handlers that read and write
them, and the rules the schema enforces on every write.

- `types.dfy` (`Types`): the rows (`User`, `Post`, `Comment`, `Message`), the token
  claims, and the handlers' replies (`Result`, `Outcome`, `Error`).
- `auth.dfy` (`Auth`): the `auth` middleware, i.e. taking the Bearer token out of the
  `Authorization` header (JavaScript's `split(' ')` with its round trip) and
  verifying it.
- `social.dfy` (`Social`): the `relations` and `likes` tables after a
  follow/unfollow/like/unlike, and the counts of the profile route.
- `sorting.dfy` (`Sorting`): `ORDER BY` on an integer column and `LIMIT`.
- `feed.dfy` (`FeedQuery`): the feed query and what it promises.
- `comments.dfy` (`Comments`): the comment list of a post.
- `media.dfy` (`Media`): the media type and public path of an upload.
- `server.dfy` (`Server`): the class `Store`, which holds `users` (id ↦ username,
  avatar, hash), `relations` and `likes` (sets of pairs), `posts`, `comments` and
  `messages` (sequences of rows) and the socket state (socket ↦ bound user, socket ↦
  joined rooms). Each mutating handler is a method. `Valid()` is the schema's
  primary, unique and foreign keys plus the socket bookkeeping, and every method
  preserves it.
- `scenario.dfy` (`Scenario`): a session from an empty store. Two users register,
  one posts, the other follows, and the follower's feed holds that one post.

Every write fails where SQLite would reject it. That means a duplicate primary
key, a missing referenced row (the schema turns foreign keys on) or a NULL in a
`NOT NULL` column. The follow and like handlers swallow the failure and still
answer ok. The post, comment and direct-message handlers do not catch it, so
nothing is written and nothing is answered or emitted (`StoreFailed`, or `None`
for a direct message). The avatar and post handlers read the uploaded file's name
without checking that a file came; without one they throw before any write. The
model marks that outcome `NoFile`: no answer and no change, like `StoreFailed`.

The model keeps these behaviours of the code:
- Ties in `created_at` have no defined order in the code. The lemmas promise only
  non-increasing (feed) or non-decreasing (comments) order, not insertion order.
- A failed socket `auth` leaves the socket's earlier binding, if any, in place. The
  connection is not reset to unauthenticated.
- A successful socket `auth` joins the room of the new user without leaving the
  rooms joined before.
- A follow or like that names an unknown user or post fails the foreign key and
  adds no row, and the handler still answers ok.
- Post timestamps are whatever the caller passes. No monotonicity is assumed.

## Model

| member | source | states |
|---|---|---|
| `Auth.Split` | server.js:109 | JavaScript's `split(' ')`: at least one field, and no field contains a space (empty fields between adjacent spaces are kept) |
| `Auth.JoinSplit` | server.js:109 | splitting the header on spaces loses nothing: joining the fields with single spaces gives back the header |
| `Auth.SplitJoin` | server.js:109 | fields without spaces, joined by single spaces, split back into exactly those fields |
| `Auth.BearerToken` | server.js:109-110 | a token is returned iff the header is present and its second space-separated field exists and is non-empty, and then it is that field; every other header, missing ones included, gives `NoToken`; a token returned is non-empty and has no space |
| `Auth.BearerTokenOfScheme` | server.js:109-110 | a header `<scheme> <token>` with no spaces inside either part yields exactly `<token>` |
| `Auth.BearerTokenNeedsSpace` | server.js:109-110 | a header without a space yields `NoToken` |
| `Auth.BearerTokenEmptyField` | server.js:109-110 | a header that ends right after the first space, or has two spaces there (`"Bearer "`, `"Bearer  t"`), has an empty second field and gives `NoToken` |
| `Auth.Authenticate` | server.js:108-117 | succeeds iff a token is present and the verifier accepts it, returning its claims; otherwise `NoToken` or `InvalidToken`, matching the two 401 replies |
| `Sorting.SortBy` | server.js:199 | the result is a permutation of the input (same multiset, same length) whose keys never decrease |
| `Sorting.InsertBySorted` | server.js:199 | inserting one row into rows sorted by key keeps them sorted |
| `Sorting.Limit` | server.js:200 | `LIMIT n` keeps a prefix of length `min(n, size)` |
| `Sorting.LimitKeepsSmallest` | server.js:199-200 | in a sorted sequence, an element cut off by the limit has a key no smaller than that of any element kept |
| `Social.WithEdge` | server.js:166-171 | after a follow insert, `(me, target)` is present iff it was already or both users exist (primary key at line 53, foreign keys at 54-55); no other edge appears and none disappears |
| `Social.WithoutPair` | server.js:173-216 | a delete removes the one pair and leaves every other row as it was: unfollow of `(me, target)` (lines 173-177), unlike of `(me, post)` (lines 212-216) |
| `Social.WithLike` | server.js:205-211 | after a like insert, `(me, post)` is present iff it was already or the user and the post exist (primary key at line 69, foreign keys at 70-71); nothing else changes |
| `Social.RowsTo` | server.js:149 | the rows of a pair table whose second column is the id: a user's followers in `relations` (and, at line 194, a post's likes in `likes`) |
| `Social.RowsFrom` | server.js:150 | the rows of a pair table whose first column is the id: the users a user follows |
| `Social.LikeCount` | server.js:194 | a post's like count is zero iff no like row names the post |
| `Social.PostCount` | server.js:151 | the count is at most the number of posts and is zero iff no post is by the user |
| `Social.PostCountAppend` | server.js:151 | appending a post adds one to its author's post count and leaves every other user's count unchanged |
| `Social.ProfileStats` | server.js:147-152 | followers = edges into the caller, following = edges out of the caller, posts = the caller's posts |
| `Social.ProfileOf` | server.js:145-154 | the reply holds the caller's id, username and avatar iff the caller's row exists (never the hash), followers = edges into the caller, following = edges out of the caller, posts = the caller's posts |
| `Social.WithEdgeIdempotent` | server.js:166-171 | following twice gives the same relations as following once |
| `Social.FollowTwiceOneFollower` | server.js:149 | a user with no followers who is followed twice by the same user has a follower count of exactly one |
| `Social.FollowUnknownUser` | server.js:55 | following a user who does not exist adds no edge |
| `Social.FollowCounts` | server.js:149-150 | a new follow adds one to the target's followers and one to the follower's following |
| `Social.UnfollowUndoesFollow` | server.js:173-177 | unfollowing right after a new follow restores the relations exactly |
| `Social.LikeUnlikeLike` | server.js:194 | like, unlike, like leaves the post's like count one more than the other users' likes |
| `Social.LikeUnlikeLikeCountsOne` | server.js:69 | on a post no one else liked, like, unlike, like gives a like count of 1, not 2 |
| `FeedQuery.Visible` | server.js:198 | the viewer's own posts always pass the `WHERE` clause; another author's pass iff the viewer follows that author |
| `FeedQuery.Eligible` | server.js:196-198 | the selected posts are exactly the stored posts whose author exists (the join) and is the viewer or a followee of the viewer |
| `FeedQuery.EligibleCounts` | server.js:196-198 | the selection holds each stored post whose author exists and is the viewer or a followee exactly as many times as the table does, and every other post zero times |
| `FeedQuery.Annotate` | server.js:193-195 | a row carries its author's username and avatar, the number of like rows of its post, and `liked` iff the viewer's like row exists |
| `FeedQuery.Feed` | server.js:190-203 | the rows are the selected posts, newest first, cut at 100, each annotated |
| `FeedQuery.FeedSize` | server.js:200 | the feed has `min(100, number selected)` rows |
| `FeedQuery.FeedNewestFirst` | server.js:199 | row timestamps are non-increasing |
| `FeedQuery.FeedRowsVisible` | server.js:197-198 | every row is a stored post whose author exists and is the viewer or one of the viewer's followees |
| `FeedQuery.OwnPostsEligible` | server.js:198 | the viewer's own posts are selected whatever the relations, even with no relations at all |
| `FeedQuery.FeedComplete` | server.js:198-200 | when at most 100 posts are selected, the feed holds each of them exactly as often as it was selected |
| `FeedQuery.FeedSubset` | server.js:196-200 | the feed's posts are a sub-multiset of the selected posts |
| `FeedQuery.FeedKeepsNewest` | server.js:199-200 | a selected post left out by the limit is no newer than any row in the feed |
| `FeedQuery.FeedAnnotations` | server.js:193-195 | each row's `likes` is the like count of its post and `liked` holds iff the viewer's like row exists, with the author's username and avatar |
| `FeedQuery.FollowShowsPosts` | server.js:198 | after following an existing user, an author is visible iff they were before or are that user |
| `FeedQuery.UnfollowHidesPosts` | server.js:198 | after unfollowing a user, their posts are hidden unless they are the viewer's own |
| `Comments.OnPost` | server.js:221-223 | the selected comments are exactly the stored comments on the post whose author exists |
| `Comments.OnPostCounts` | server.js:221-223 | the selection holds each stored comment on the post whose author exists exactly as many times as the table does, and every other comment zero times |
| `Comments.ListComments` | server.js:218-227 | the rows are the selected comments, sorted by timestamp |
| `Comments.CommentsOldestFirst` | server.js:224 | row timestamps are non-decreasing |
| `Comments.CommentsOfPost` | server.js:220-225 | the rows are the selected comments, each exactly once, with their author's username and avatar |
| `Media.MediaTypeOf` | server.js:182 | `Video` iff the mimetype is present and starts with `video`; `Image` otherwise, including when it is missing |
| `Media.MediaUrl` | server.js:181 | the public path is `/uploads/` followed by the stored file name |
| `Server.Recipients` | server.js:257 | the targets are exactly the connected sockets in either of the two rooms, each once |
| `Server.Store.Valid` | server.js:43-90 | the store invariant: the schema's keys and references (lines 43-90) plus the follow guard of line 165; its contract spells out that under it no user follows themselves, every like names an existing user and an existing post, and no two users share a username |
| `Server.Store.constructor` | server.js:42-91 | a new store has empty tables and no sockets, and satisfies the key and foreign-key invariant |
| `Server.Store.Register` | server.js:120-132 | a missing or empty username or password gives `MissingCredentials`; a taken username or id gives `UsernameTaken`; otherwise exactly one user row is added, with an empty avatar, and its claims returned |
| `Server.Store.Login` | server.js:134-142 | succeeds iff a user with that username exists and the password matches its hash, returning that user's id, username and avatar; otherwise `InvalidCredentials` |
| `Server.Store.SetAvatar` | server.js:156-160 | with a file, the caller's avatar (if the caller's row exists) becomes the upload's path and that path is returned; without a file the handler throws before the update (`NoFile`: no answer, nothing changes) |
| `Server.Store.Follow` | server.js:163-172 | following oneself gives `CannotFollowSelf` and leaves relations unchanged; otherwise the reply is ok and relations become `WithEdge`; the invariant (no self-loops, both ends exist) is kept |
| `Server.Store.Unfollow` | server.js:173-177 | always ok; relations become `WithoutPair` |
| `Server.Store.CreatePost` | server.js:180-188 | without a file the handler throws before the insert (`NoFile`: no answer, nothing stored); with a duplicate id or an unknown author, nothing is stored; otherwise exactly one post is appended, with caption defaulted to empty, its media type from the mimetype and its upload path, and it is returned; the author's post count grows by one and every other user's stays the same |
| `Server.Store.Like` | server.js:205-211 | always ok; likes become `WithLike` |
| `Server.Store.Unlike` | server.js:212-216 | always ok; likes become `WithoutPair` |
| `Server.Store.AddComment` | server.js:228-235 | with a duplicate id, an unknown post or an unknown author nothing is stored; otherwise exactly one comment is appended, content defaulted to empty, and returned |
| `Server.Store.Connect` | server.js:238 | a new socket has no bound user and sits in the room named by its own id |
| `Server.Store.Disconnect` | server.js:238 | a closed socket loses its binding and its rooms |
| `Server.Store.SocketAuth` | server.js:239-248 | a token the verifier rejects gives `AuthFailed` and changes nothing; an accepted one binds the socket to its claims, adds the user's room to the rooms already joined, and answers `Authed` with id and username |
| `Server.Store.SendDm` | server.js:249-258 | an unbound socket stores and emits nothing; a failing insert (missing recipient or content, duplicate id, unknown sender or recipient) emits nothing; otherwise exactly one message from the bound user is appended and then emitted once to each socket in the recipient's or the sender's room, which includes the sender and every socket bound to either party |
| `Scenario.BobSeesAlice` | server.js:190-203 | with one post by a followed user and no likes, the follower's feed is that one row, not liked, with zero likes |
| `Scenario.Session` | server.js:120-172 | from an empty store, two registrations, an image post without caption by the first user and a follow by the second leave exactly those two users, that one post and that one edge, and no likes |
| `Scenario.FollowThenFeed` | server.js:120-203 | from an empty store: two registrations, an image post by the first, a follow by the second; the second's feed has exactly one row, authored by the first, with the default caption, zero likes and not liked |

## Left out

- What follows an uncaught throw inside an async handler (a missing upload, a
  failed insert): whether Express's error handling or an unhandled promise
  rejection ends the request is not modelled. The model records only that nothing
  is written and nothing is answered.
- HTTP routing, CORS, static file serving and the multipart upload middleware
  (server.js:24-33, 94-102). The model takes the stored file name and the mimetype
  as the `Upload` value.
- The SQLite connection and the schema statements themselves. Their primary,
  unique, foreign-key and `NOT NULL` constraints are kept as the insert guards and
  as `Store.Valid()`.
- `ON DELETE CASCADE`: no handler deletes a user or a post, so nothing exercises it.
- Token signing (`jwt.sign`): `Register` and `Login` return the claims or session
  that the token is signed over, not the token text.
- Token verification (`jwt.verify`) and `bcrypt.compare` are function parameters.
  The `bcrypt.hash` output is a parameter. Their internals are foreign
  cryptographic code.
- `uuidv4()` and `Date.now()` are parameters. The socket id of a new connection is
  a parameter of `Connect`.
- The socket.io transport and the HTTP listener. Emitting a direct message is
  modelled as returning the message and its target set. The `authed` and `error`
  emissions are the returned `AuthEvent`.
- Concurrency. The handlers run one at a time. A duplicate-insert race ends like
  the second of two sequential inserts.
- Request bodies of the wrong JavaScript type (numbers, objects) and socket
  payloads that are not objects are not modelled. Login's username and password
  are plain strings; a missing password, which makes `bcrypt.compare` throw, is
  not modelled.
- `public/assets/app.js` (browser UI code: DOM, fetch, localStorage) and `theme.js`
  (a DOM theme toggle). Neither is part of this model.
