/**
 * The `auth` middleware of the HTTP routes: the session token is the second
 * space-separated field of the `Authorization` header (`Bearer <token>`).
 *
 * Checking the token's signature and expiry is the job of the JSON Web Token
 * library; the model receives it as the function `verify`, which yields the
 * token's claims or `None` when the library throws.
 */
module Auth {
  import opened Types

  /** JavaScript's `s.split(' ')`: the maximal runs between spaces, empty ones included. */
  function Split(s: string): (r: seq<string>)
    ensures |r| >= 1
    ensures forall k :: 0 <= k < |r| ==> ' ' !in r[k]
  {
    if s == [] then [""]
    else if s[0] == ' ' then [""] + Split(s[1..])
    else
      var rest := Split(s[1..]);
      [[s[0]] + rest[0]] + rest[1..]
  }

  /** Joins fields with single spaces between them: the inverse of `Split`. */
  function Join(fields: seq<string>): (r: string)
    requires |fields| >= 1
  {
    if |fields| == 1 then fields[0] else fields[0] + " " + Join(fields[1..])
  }

  /** Splitting loses nothing: joining the fields again gives back the header. */
  lemma {:induction false} JoinSplit(s: string)
    ensures Join(Split(s)) == s
  {
    if s != [] {
      JoinSplit(s[1..]);
      var rest := Split(s[1..]);
      if s[0] == ' ' {
        assert Split(s)[1..] == rest;
      } else if |rest| == 1 {
        assert Join(Split(s)) == [s[0]] + rest[0];
      } else {
        assert Split(s)[1..] == rest[1..];
        assert Join(rest) == rest[0] + " " + Join(rest[1..]);
      }
    }
  }

  /** Fields without spaces come back unchanged from a join followed by a split. */
  lemma {:induction false} SplitJoin(fields: seq<string>)
    requires |fields| >= 1
    requires forall k :: 0 <= k < |fields| ==> ' ' !in fields[k]
    ensures Split(Join(fields)) == fields
  {
    if |fields| == 1 {
      SplitNoSpace(fields[0]);
    } else {
      SplitJoin(fields[1..]);
      SplitAround(fields[0], Join(fields[1..]));
      assert fields == [fields[0]] + fields[1..];
    }
  }

  /** A text without spaces is a single field. */
  lemma {:induction false} SplitNoSpace(s: string)
    requires ' ' !in s
    ensures Split(s) == [s]
  {
    if s != [] {
      assert s[0] != ' ';
      SplitNoSpace(s[1..]);
      assert [s[0]] + s[1..] == s;
    }
  }

  /** A space after a first field without spaces separates it from the rest. */
  lemma {:induction false} SplitAround(head: string, tail: string)
    requires ' ' !in head
    ensures Split(head + " " + tail) == [head] + Split(tail)
  {
    if head == [] {
      assert head + " " + tail == [' '] + tail;
      assert (head + " " + tail)[1..] == tail;
    } else {
      assert head[0] != ' ';
      SplitAround(head[1..], tail);
      assert (head + " " + tail)[1..] == head[1..] + " " + tail;
      assert [head[0]] + head[1..] == head;
    }
  }

  /** The second field of the header, or `NoToken` when it is absent or empty. */
  function BearerToken(header: Option<string>): (r: Result<string>)
    ensures r.Ok? <==> header.Some? && |Split(header.value)| >= 2 && Split(header.value)[1] != ""
    ensures r.Ok? ==> r.value != "" && ' ' !in r.value
    ensures r.Err? ==> r.error == NoToken
    ensures header.None? ==> r == Err(NoToken)
    ensures header.Some? && |Split(header.value)| >= 2 && Split(header.value)[1] != ""
            ==> r == Ok(Split(header.value)[1])
  {
    match header
    case None => Err(NoToken)
    case Some(h) =>
      var fields := Split(h);
      if |fields| < 2 || fields[1] == "" then Err(NoToken) else Ok(fields[1])
  }

  /** A well-formed `Bearer <token>` header yields exactly its token. */
  lemma BearerTokenOfScheme(scheme: string, token: string)
    requires ' ' !in scheme && ' ' !in token && token != ""
    ensures BearerToken(Some(scheme + " " + token)) == Ok(token)
  {
    SplitAround(scheme, token);
    SplitNoSpace(token);
  }

  /** A scheme followed by a space and then nothing, or by two spaces, has an empty second
      field: `"Bearer "` and `"Bearer  t"` are both `NoToken`. */
  lemma BearerTokenEmptyField(scheme: string, tail: string)
    requires ' ' !in scheme
    requires tail == "" || tail[0] == ' '
    ensures BearerToken(Some(scheme + " " + tail)) == Err(NoToken)
  {
    SplitAround(scheme, tail);
    if tail == "" {
      SplitNoSpace(tail);
    } else {
      SplitAround("", tail[1..]);
      assert "" + " " + tail[1..] == tail;
    }
  }

  /** A header without a space has no second field. */
  lemma BearerTokenNeedsSpace(header: string)
    requires ' ' !in header
    ensures BearerToken(Some(header)) == Err(NoToken)
  {
    SplitNoSpace(header);
  }

  /** The whole `auth` middleware: 401 `No token`, 401 `Invalid token`, or the claims. */
  function Authenticate(header: Option<string>, verify: string -> Option<Claims>): (r: Result<Claims>)
    ensures r.Ok? <==> BearerToken(header).Ok? && verify(BearerToken(header).value).Some?
    ensures r.Ok? ==> r.value == verify(BearerToken(header).value).value
    ensures r.Err? && BearerToken(header).Ok? ==> r.error == InvalidToken
    ensures r.Err? && BearerToken(header).Err? ==> r.error == NoToken
  {
    match BearerToken(header)
    case Err(e) => Err(e)
    case Ok(token) =>
      match verify(token)
      case None => Err(InvalidToken)
      case Some(claims) => Ok(claims)
  }
}
