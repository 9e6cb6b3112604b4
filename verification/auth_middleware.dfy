/**
 * `authenticateToken`: find the token in the `Authorization` header or the `token` cookie,
 * check it, load the user and let the request through only for a verified account.
 * Token verification is an oracle from token to the user id it carries.
 */
module AuthMiddleware {
  import opened Base
  import opened Database
  import Text

  /** The user attached to an authenticated request: the selected columns only. */
  datatype RequestUser = RequestUser(id: nat, email: string, name: string, isVerified: bool)

  /** The middleware's decision: a 401 reply, or pass the request on with its user. */
  datatype Decision = Reject(status: int, message: string) | Proceed(user: RequestUser)

  /**
   * `authHeader && authHeader.split(' ')[1]`: the second space-separated word of the
   * header, whatever the first word is; None when the header is empty or has one word.
   */
  function HeaderToken(header: Option<string>): (t: Option<string>)
    ensures t.Some? <==> Truthy(header) && |Text.Split(header.value, ' ')| >= 2
    ensures t.Some? ==> t.value == Text.Split(header.value, ' ')[1] && ' ' !in t.value
  {
    if !Truthy(header) then None
    else
      var words := Text.Split(header.value, ' ');
      if |words| >= 2 then Some(words[1]) else None
  }

  /** The token the request carries: the header's when it is non-empty, else the cookie's. */
  function ExtractToken(header: Option<string>, cookie: Option<string>): (t: Option<string>)
    ensures Truthy(HeaderToken(header)) ==> t == HeaderToken(header)
    ensures !Truthy(HeaderToken(header)) ==> t == OrUndefined(cookie)
    ensures t.Some? ==> t.value != ""
  {
    var fromHeader := HeaderToken(header);
    if Truthy(fromHeader) then fromHeader else OrUndefined(cookie)
  }

  /** The 401 ladder: no token, bad token, unknown user, unverified user; else proceed. */
  function Authenticate(users: seq<User>, header: Option<string>, cookie: Option<string>,
                        verify: string -> Option<nat>): (d: Decision)
    ensures ExtractToken(header, cookie).None? ==> d == Reject(401, "Access token is required")
    ensures d.Reject? ==> d.status == 401
    ensures d.Proceed? <==>
      && ExtractToken(header, cookie).Some?
      && verify(ExtractToken(header, cookie).value).Some?
      && UserById(users, verify(ExtractToken(header, cookie).value).value).Some?
      && UserById(users, verify(ExtractToken(header, cookie).value).value).value.isVerified
    ensures d.Proceed? ==>
      var u := UserById(users, verify(ExtractToken(header, cookie).value).value).value;
      d.user == RequestUser(u.id, u.email, u.name, true)
    ensures ExtractToken(header, cookie).Some? && verify(ExtractToken(header, cookie).value).None? ==>
      d == Reject(401, "Invalid or expired token")
    ensures ExtractToken(header, cookie).Some? && verify(ExtractToken(header, cookie).value).Some?
            && UserById(users, verify(ExtractToken(header, cookie).value).value).None? ==>
      d == Reject(401, "User not found")
    ensures ExtractToken(header, cookie).Some? && verify(ExtractToken(header, cookie).value).Some?
            && UserById(users, verify(ExtractToken(header, cookie).value).value).Some?
            && !UserById(users, verify(ExtractToken(header, cookie).value).value).value.isVerified ==>
      d == Reject(401, "Please verify your email address")
  {
    var token := ExtractToken(header, cookie);
    if token.None? then Reject(401, "Access token is required")
    else
      var id := verify(token.value);
      if id.None? then Reject(401, "Invalid or expired token")
      else
        var user := UserById(users, id.value);
        if user.None? then Reject(401, "User not found")
        else if !user.value.isVerified then Reject(401, "Please verify your email address")
        else Proceed(RequestUser(user.value.id, user.value.email, user.value.name, user.value.isVerified))
  }

  /**
   * Any scheme word followed by a space and the token yields the token: the scheme is not
   * compared with `Bearer` (section 2.1 of RFC 6750 names that scheme).
   */
  lemma {:induction false} AnySchemeYieldsToken(scheme: string, token: string)
    requires ' ' !in scheme && ' ' !in token
    ensures HeaderToken(Some(scheme + " " + token)) == Some(token)
  {
    var parts := [scheme, token];
    assert Text.Join(parts, ' ') == scheme + " " + token by {
      assert Text.Join(parts[1..], ' ') == token;
    }
    Text.SplitJoin(parts, ' ');
  }

  /**
   * With unique ids, a bearer token that verifies to a stored user's id lets the request
   * through exactly when that user is verified.
   */
  lemma BearerTokenDecision(users: seq<User>, i: nat, token: string, verify: string -> Option<nat>)
    requires UniqueUserIds(users)
    requires i < |users|
    requires ' ' !in token && token != "" && verify(token) == Some(users[i].id)
    ensures Authenticate(users, Some("Bearer " + token), None, verify) ==
      if users[i].isVerified then Proceed(RequestUser(users[i].id, users[i].email, users[i].name, true))
      else Reject(401, "Please verify your email address")
  {
    var header := Some("Bearer " + token);
    AnySchemeYieldsToken("Bearer", token);
    assert "Bearer" + " " + token == "Bearer " + token;
    assert ExtractToken(header, None) == Some(token);
    UserByIdUnique(users, users[i].id, i);
    assert UserById(users, users[i].id) == Some(users[i]);
  }

  /** The Express request as the middleware sees it: `req.user`, `next` and the reply. */
  class AuthRequest {
    var user: Option<RequestUser>
    var nextCalls: nat
    var reply: Option<(int, string)>

    constructor ()
      ensures user == None && nextCalls == 0 && reply == None
    {
      user, nextCalls, reply := None, 0, None;
    }

    /** Run the middleware: either set `req.user` and call `next` once, or write a 401. */
    method AuthenticateToken(users: seq<User>, header: Option<string>, cookie: Option<string>,
                             verify: string -> Option<nat>)
      modifies this
      ensures Authenticate(users, header, cookie, verify).Proceed? ==>
        && user == Some(Authenticate(users, header, cookie, verify).user)
        && nextCalls == old(nextCalls) + 1
        && reply == old(reply)
      ensures Authenticate(users, header, cookie, verify).Reject? ==>
        && user == old(user)
        && nextCalls == old(nextCalls)
        && reply == Some((401, Authenticate(users, header, cookie, verify).message))
    {
      var decision := Authenticate(users, header, cookie, verify);
      match decision {
        case Proceed(u) =>
          user := Some(u);
          nextCalls := nextCalls + 1;
        case Reject(status, message) =>
          reply := Some((status, message));
      }
    }
  }
}
