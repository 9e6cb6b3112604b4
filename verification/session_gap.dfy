/**
 * Where the verify-otp handler and the request middleware disagree: a LOGIN code opens a
 * session for an account that has not verified its e-mail, a session every protected
 * route then refuses, while password/code login refuses the same account outright.
 */
module SessionGap {
  import opened Base
  import opened Database
  import Otp = OtpService
  import Text
  import AuthController
  import AuthMiddleware

  /** Right after a LOGIN code is issued to a user, verify-otp accepts it for that user. */
  lemma LoginCodeAccepted(users: seq<User>, rows: seq<Otp.OtpToken>, i: nat, code: nat, now: int, t: int)
    requires UniqueEmails(users)
    requires i < |users|
    requires now <= t < now + Otp.OtpLifetimeMs
    ensures
      var email := users[i].email;
      var issued := Otp.Issue(rows, email, Otp.Login, Text.DecimalString(code), now, Some(users[i].id));
      && AuthController.RequestedType(Given("LOGIN")) == Some(Otp.Login)
      && AuthController.AcceptedRow(issued, Some(email), Some(Text.DecimalString(code)), Given("LOGIN"), t) == Some(|rows|)
      && UserByEmail(users, email) == Some(users[i])
  {
    var email := users[i].email;
    var otp := Text.DecimalString(code);
    assert AuthController.RequestedType(Given("LOGIN")) == Some(Otp.Login);
    Otp.IssueOnlyNewestMatches(rows, email, Otp.Login, otp, now, Some(users[i].id), otp, t);
    UserByEmailUnique(users, email, i);
  }

  /**
   * For an unverified user who has just been sent a LOGIN code: verify-otp accepts the
   * code (and, the kind not being SIGNUP, answers with a session for the user as stored),
   * login with the same code refuses with 401, and the middleware refuses the session.
   */
  lemma UnverifiedLoginCodeOpensRefusedSession(users: seq<User>, rows: seq<Otp.OtpToken>, i: nat, code: nat,
                                               now: int, t: int, token: string, verify: string -> Option<nat>)
    requires UniqueUserIds(users) && UniqueEmails(users)
    requires i < |users| && !users[i].isVerified
    requires Otp.MinCode <= code <= Otp.MaxCode
    requires now <= t < now + Otp.OtpLifetimeMs
    requires ' ' !in token && token != "" && verify(token) == Some(users[i].id)
    ensures
      var email := users[i].email;
      var issued := Otp.Issue(rows, email, Otp.Login, Text.DecimalString(code), now, Some(users[i].id));
      && AuthController.AcceptedRow(issued, Some(email), Some(Text.DecimalString(code)), Given("LOGIN"), t) == Some(|rows|)
      && UserByEmail(users, email) == Some(users[i])
    ensures AuthController.LoginLadder(Some(users[i]), None, Some(Text.DecimalString(code)), false, true)
         == Some(AuthController.Fail(401, "Please verify your email address"))
    ensures AuthMiddleware.Authenticate(users, Some("Bearer " + token), None, verify)
         == AuthMiddleware.Reject(401, "Please verify your email address")
  {
    LoginCodeAccepted(users, rows, i, code, now, t);
    AuthMiddleware.BearerTokenDecision(users, i, token, verify);
    Otp.IssuedCodeIsSixDigits(code);
    assert Truthy(Some(Text.DecimalString(code)));
  }
}
