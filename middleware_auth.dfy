/**
 * The route guards: `protect` (bearer token to stored user), `adminOnly` and
 * `superAdminOnly`. Token verification is a parameter, since signing and
 * checking JWTs happens outside the backend's own code.
 */
module AuthMiddleware {
  import opened Store

  /** `jwt.verify` with the process secret and the clock: the id in a valid token, or None. */
  type Verifier = string -> Option<Id>

  /** What `protect` leaves behind: the user attached to `req.user`, or the response it sent. */
  datatype Auth = Authenticated(user: PublicUser) | Rejected(response: Response)

  /** What a guard does: call `next()`, or send a response and stop. */
  datatype Flow = Next | Halt(response: Response)

  /** Position of the first `c` in `s`. */
  function IndexOf(s: string, c: char): (i: nat)
    requires c in s
    ensures i < |s| && s[i] == c && c !in s[..i]
  {
    if s[0] == c then 0
    else
      var i := 1 + IndexOf(s[1..], c);
      assert s[..i] == [s[0]] + s[1..][..i - 1];
      i
  }

  /** The fields joined back with single spaces. */
  function Join(fields: seq<string>): string
    requires |fields| >= 1
  {
    if |fields| == 1 then fields[0] else fields[0] + " " + Join(fields[1..])
  }

  /** JavaScript's `s.split(" ")`: the maximal space-free runs, empty ones included. */
  function Split(s: string): (fields: seq<string>)
    ensures |fields| >= 1
    ensures forall k :: 0 <= k < |fields| ==> ' ' !in fields[k]
    ensures Join(fields) == s
    decreases |s|
  {
    if ' ' !in s then [s]
    else
      var i := IndexOf(s, ' ');
      var rest := Split(s[i + 1..]);
      var fields := [s[..i]] + rest;
      assert fields[1..] == rest;
      assert s == s[..i] + " " + s[i + 1..];
      fields
  }

  /** The first space of `head + " " + tail` is the one after a space-free head. */
  lemma FirstSpaceAfter(head: string, tail: string)
    requires ' ' !in head
    ensures var s := head + " " + tail;
            ' ' in s && IndexOf(s, ' ') == |head| && s[..|head|] == head && s[|head| + 1..] == tail
  {
    var s := head + " " + tail;
    assert s[|head|] == ' ';
    assert s[..|head|] == head;
    assert s[|head| + 1..] == tail;
  }

  /** Splitting the join of space-free fields gives the fields back. */
  lemma {:induction false} SplitJoin(fields: seq<string>)
    requires |fields| >= 1
    requires forall k :: 0 <= k < |fields| ==> ' ' !in fields[k]
    ensures Split(Join(fields)) == fields
  {
    if |fields| > 1 {
      var tail := Join(fields[1..]);
      FirstSpaceAfter(fields[0], tail);
      SplitJoin(fields[1..]);
      assert Split(Join(fields)) == [fields[0]] + Split(tail);
      assert fields == [fields[0]] + fields[1..];
    }
  }

  /** `req.headers.authorization?.split(" ")[1]`, where a missing or empty second field gives no token. */
  function BearerToken(authorization: Option<string>): (token: Option<string>)
    ensures token.Some? ==> authorization.Some? && token.value != "" && ' ' !in token.value
    ensures authorization.Some? && ' ' !in authorization.value ==> token.None?
  {
    match authorization
    case None => None
    case Some(header) =>
      var fields := Split(header);
      if |fields| >= 2 && fields[1] != "" then Some(fields[1]) else None
  }

  /** An empty second field, as in `"Bearer "` or `"Bearer  x"`, gives no token. */
  lemma EmptySecondFieldNoToken(scheme: string, rest: string)
    requires ' ' !in scheme
    requires rest == "" || rest[0] == ' '
    ensures BearerToken(Some(scheme + " " + rest)).None?
  {
    FirstSpaceAfter(scheme, rest);
    var fields := Split(scheme + " " + rest);
    assert fields == [scheme] + Split(rest);
    if rest != "" {
      assert rest == "" + " " + rest[1..];
      FirstSpaceAfter("", rest[1..]);
      assert Split(rest)[0] == "";
    }
    assert fields[1] == Split(rest)[0] == "";
  }

  /** The second space-separated field of a header is its token, whatever follows it. */
  lemma BearerTokenOfFields(fields: seq<string>)
    requires |fields| >= 2 && fields[1] != ""
    requires forall k :: 0 <= k < |fields| ==> ' ' !in fields[k]
    ensures BearerToken(Some(Join(fields))) == Some(fields[1])
  {
    SplitJoin(fields);
  }

  /** A `"<scheme> <token>"` header yields exactly the token. */
  lemma BearerTokenOf(scheme: string, token: string)
    requires ' ' !in scheme && ' ' !in token && token != ""
    ensures BearerToken(Some(scheme + " " + token)) == Some(token)
  {
    var fields := [scheme, token];
    assert Join(fields[1..]) == token;
    BearerTokenOfFields(fields);
  }

  /** `protect`: token extraction, verification, then lookup of the user without its password. */
  function Protect(authorization: Option<string>, verify: Verifier, users: map<Id, User>): (a: Auth)
    ensures BearerToken(authorization).None? ==> a == Rejected(Msg(401, "No token provided"))
    ensures BearerToken(authorization).Some? && verify(BearerToken(authorization).value).None? ==>
              a == Rejected(Msg(401, "Invalid token"))
    ensures BearerToken(authorization).Some? && verify(BearerToken(authorization).value).Some? &&
            verify(BearerToken(authorization).value).value !in users ==>
              a == Rejected(Msg(401, "User not found"))
    ensures a.Authenticated? <==>
              BearerToken(authorization).Some? && verify(BearerToken(authorization).value).Some? &&
              verify(BearerToken(authorization).value).value in users
    ensures a.Authenticated? ==>
              a.user.id == verify(BearerToken(authorization).value).value &&
              a.user == WithoutPassword(a.user.id, users[a.user.id])
    ensures a.Rejected? ==> a.response.status == 401
  {
    match BearerToken(authorization)
    case None => Rejected(Msg(401, "No token provided"))
    case Some(token) =>
      match verify(token)
      case None => Rejected(Msg(401, "Invalid token"))
      case Some(id) =>
        if id in users then Authenticated(WithoutPassword(id, users[id]))
        else Rejected(Msg(401, "User not found"))
  }

  /** A token that verifies to a stored user authenticates as that user when sent as a bearer token. */
  lemma BearerAuthenticates(users: map<Id, User>, verify: Verifier, id: Id, token: string)
    requires id in users
    requires ' ' !in token && token != ""
    requires verify(token) == Some(id)
    ensures Protect(Some("Bearer " + token), verify, users) == Authenticated(WithoutPassword(id, users[id]))
  {
    BearerTokenOf("Bearer", token);
  }

  /** `adminOnly`. */
  function AdminOnly(caller: PublicUser): (f: Flow)
    ensures f == Next <==> caller.role == ADMIN || caller.role == SUPERADMIN
    ensures f.Halt? ==> f.response.status == 403
  {
    if caller.role != ADMIN && caller.role != SUPERADMIN then Halt(Msg(403, "Admins only")) else Next
  }

  /** `superAdminOnly`. */
  function SuperAdminOnly(caller: PublicUser): (f: Flow)
    ensures f == Next <==> caller.role == SUPERADMIN
    ensures f.Halt? ==> f.response.status == 403
  {
    if caller.role != SUPERADMIN then Halt(Msg(403, "Superadmin only")) else Next
  }

  /** Whoever passes `superAdminOnly` passes `adminOnly`. */
  lemma SuperAdminPassesAdminOnly(caller: PublicUser)
    ensures SuperAdminOnly(caller) == Next ==> AdminOnly(caller) == Next
  {
  }
}
