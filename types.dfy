/**
 * The rows of the Luno store and the replies of its handlers.
 *
 * Every identifier of the Luno schema is a text column (uuid strings for users,
 * posts, comments and messages; socket.io ids for connections), so all of them
 * are modelled as `string`.
 */
module Types {

  type Id = string
  type SocketId = string

  /** A row of the `users` table, keyed by its id in `Store.users`. */
  datatype User = User(username: string, avatar: string, hash: string)

  /** The claims a session token carries: what `jwt.verify` hands back. */
  datatype Claims = Claims(id: Id, username: string)

  /** A `(follower_id, followee_id)` row of `relations`, or a `(user_id, post_id)` row of `likes`. */
  type Edge = (Id, Id)

  datatype MediaType = Image | Video

  datatype Post = Post(id: Id, userId: Id, caption: string, mediaType: MediaType,
                       mediaUrl: string, createdAt: int)

  datatype Comment = Comment(id: Id, postId: Id, userId: Id, content: string, createdAt: int)

  datatype Message = Message(id: Id, fromId: Id, toId: Id, content: string, createdAt: int)

  datatype Option<T> = None | Some(value: T)

  /** The outcomes a handler can end in other than success. Most are error replies.
      Two of them are not replies: `NoFile` is a request without an upload, where the
      handler throws reading the missing file's name; `StoreFailed` is an insert that
      the handler does not catch. After either one, no answer is sent and nothing is
      written. */
  datatype Error =
    | NoToken
    | InvalidToken
    | MissingCredentials
    | UsernameTaken
    | InvalidCredentials
    | CannotFollowSelf
    | NoFile
    | StoreFailed

  datatype Result<T> = Ok(value: T) | Err(error: Error)

  /** A reply that carries no value: `{ ok: true }` or an error. */
  datatype Outcome = Pass | Fail(error: Error)

  /** The text a JavaScript `x || ''` yields for an optional string body field. */
  function OrEmpty(s: Option<string>): (r: string)
    ensures s.None? ==> r == ""
    ensures s.Some? ==> r == s.value
  {
    match s
    case None => ""
    case Some(v) => v
  }

  /** JavaScript truthiness of an optional string: present and not empty. */
  predicate Truthy(s: Option<string>)
  {
    s.Some? && s.value != ""
  }
}
