/**
 * `AuthController`: sign-up, password or one-time-code login, sending and checking codes,
 * Google sign-in and logout. Hashing, token signing and Google's token check are oracles
 * passed in as values; `now` is the clock in milliseconds.
 */
module AuthController {
  import opened Base
  import opened Database
  import Otp = OtpService
  import Text

  /** Lifetime of a remembered session cookie: seven days in milliseconds. */
  const RememberMaxAgeMs: int := 7 * 24 * 60 * 60 * 1000

  /** The options of the `token` cookie. */
  datatype CookieOptions = CookieOptions(httpOnly: bool, secure: bool, sameSite: string, maxAge: Option<int>)

  /** What a reply does to the `token` cookie. */
  datatype CookieAction = NoCookie | SetToken(value: string, options: CookieOptions) | ClearToken(options: CookieOptions)

  /** The `data` member of a reply. */
  datatype AuthData =
    | NoData
    | OtpSent(notice: string, email: string)
    | Session(user: PublicUser, token: string)

  /** An HTTP reply: status, JSON body and cookie. */
  datatype AuthReply = AuthReply(status: int, success: bool, message: string, data: AuthData, cookie: CookieAction)

  /** The outcome of Google's `verifyIdToken` for the posted credential. */
  datatype GoogleTicket =
    | TokenRejected
    | NoPayload
    | Payload(sub: string, email: string, name: string, picture: Option<string>)

  /** A failure body: `{ success: false, message }`. */
  function Fail(status: int, message: string): (r: AuthReply)
    ensures !r.success && r.status == status && r.message == message
    ensures r.data == NoData && r.cookie == NoCookie
  {
    AuthReply(status, false, message, NoData, NoCookie)
  }

  /**
   * The cookie options every handler that signs a token uses: HTTP-only, `lax`, secure in
   * production, and persistent for seven days only when the client asked to be remembered.
   */
  function SessionCookieOptions(remember: bool, production: bool): (o: CookieOptions)
    ensures o.httpOnly && o.sameSite == "lax" && o.secure == production
    ensures o.maxAge.Some? <==> remember
    ensures o.maxAge.Some? ==> o.maxAge.value == 604800000
  {
    CookieOptions(true, production, "lax", if remember then Some(RememberMaxAgeMs) else None)
  }

  /** A successful sign-in: the user's public view and a token for its id, also set as the cookie. */
  function SessionReply(message: string, u: User, sign: nat -> string, remember: bool, production: bool): (r: AuthReply)
    ensures r.status == 200 && r.success && r.message == message
    ensures r.data.Session? && r.data.user == FormatUser(u) && r.data.token == sign(u.id)
    ensures r.cookie.SetToken? && r.cookie.value == r.data.token
    ensures r.cookie.options == SessionCookieOptions(remember, production)
  {
    var token := sign(u.id);
    AuthReply(200, true, message, Session(FormatUser(u), token), SetToken(token, SessionCookieOptions(remember, production)))
  }

  /** `logout`: clear the cookie with the session options (no lifetime). */
  function Logout(production: bool): (r: AuthReply)
    ensures r.status == 200 && r.success && r.message == "Logout successful" && r.data == NoData
    ensures r.cookie.ClearToken? && r.cookie.options == SessionCookieOptions(false, production)
  {
    AuthReply(200, true, "Logout successful", NoData, ClearToken(CookieOptions(true, production, "lax", None)))
  }

  /** The stored password hash matches the supplied password. */
  predicate PasswordMatches(user: Option<User>, password: Option<string>, compare: (string, string) -> bool) {
    && user.Some? && Truthy(password) && Truthy(user.value.password)
    && compare(password.value, user.value.password.value)
  }

  /** Login gets past the account and password checks, so a supplied code is consulted. */
  predicate PasswordStepPasses(user: Option<User>, password: Option<string>, passwordOk: bool) {
    user.Some? && (Truthy(password) ==> Truthy(user.value.password) && passwordOk)
  }

  /**
   * The decision ladder of `login`: the failure reply, or None when a session is granted.
   * `otpOk` is the result of checking the code, meaningful only when a code was supplied.
   */
  function LoginLadder(user: Option<User>, password: Option<string>, otp: Option<string>,
                       passwordOk: bool, otpOk: bool): (r: Option<AuthReply>)
    ensures r.None? <==>
      && PasswordStepPasses(user, password, passwordOk)
      && (Truthy(otp) ==> otpOk)
      && (Truthy(password) || Truthy(otp))
      && user.value.isVerified
    ensures user.None? ==> r == Some(Fail(401, "Invalid credentials"))
    ensures user.Some? && Truthy(password) && !Truthy(user.value.password) ==>
      r == Some(Fail(400, "Please use Google sign-in for this account"))
    ensures user.Some? && !Truthy(password) && !Truthy(otp) ==> r == Some(Fail(400, "Password or OTP is required"))
    ensures user.Some? && Truthy(password) && Truthy(user.value.password) && !passwordOk ==>
      r == Some(Fail(401, "Invalid credentials"))
    ensures PasswordStepPasses(user, password, passwordOk) && Truthy(otp) && !otpOk ==>
      r == Some(Fail(401, "Invalid or expired OTP"))
    ensures && PasswordStepPasses(user, password, passwordOk) && (Truthy(otp) ==> otpOk)
            && (Truthy(password) || Truthy(otp)) && !user.value.isVerified ==>
      r == Some(Fail(401, "Please verify your email address"))
    ensures r.Some? ==> !r.value.success && (r.value.status == 400 || r.value.status == 401)
  {
    if user.None? then Some(Fail(401, "Invalid credentials"))
    else if Truthy(password) && !Truthy(user.value.password) then Some(Fail(400, "Please use Google sign-in for this account"))
    else if Truthy(password) && !passwordOk then Some(Fail(401, "Invalid credentials"))
    else if Truthy(otp) && !otpOk then Some(Fail(401, "Invalid or expired OTP"))
    else if !Truthy(password) && !Truthy(otp) then Some(Fail(400, "Password or OTP is required"))
    else if !user.value.isVerified then Some(Fail(401, "Please verify your email address"))
    else None
  }

  /**
   * The purpose a verify-otp request names (`type = 'SIGNUP'`): SIGNUP when the member is
   * missing. A `null` purpose, like an unknown name, names none: the code table's purpose
   * column is a required enumeration, so the lookup fails and the code service answers false.
   */
  function RequestedType(kind: BodyField): (r: Option<Otp.OtpType>)
    ensures r == Some(Otp.Signup) <==> kind == Missing || kind == Given("SIGNUP")
    ensures kind.Null? ==> r.None?
    ensures kind.Given? ==> r == Otp.ParseOtpType(kind.text)
  {
    match kind
    case Missing => Some(Otp.Signup)
    case Null => None
    case Given(name) => Otp.ParseOtpType(name)
  }

  /**
   * The code row a verify-otp request is accepted on, if any. A request without an e-mail
   * or a code is accepted on no row.
   */
  function AcceptedRow(rows: seq<Otp.OtpToken>, email: Option<string>, otp: Option<string>, kind: BodyField, now: int)
    : (r: Option<nat>)
    ensures r.Some? ==>
      && email.Some? && otp.Some? && RequestedType(kind).Some? && r.value < |rows|
      && Otp.Matches(rows[r.value], email.value, otp.value, RequestedType(kind).value, now)
    ensures r.None? && email.Some? && otp.Some? && RequestedType(kind).Some? ==>
      forall j :: 0 <= j < |rows| ==> !Otp.Matches(rows[j], email.value, otp.value, RequestedType(kind).value, now)
  {
    var purpose := RequestedType(kind);
    if purpose.None? then None else Otp.RequestMatch(rows, email, otp, purpose.value, now)
  }

  /** The record `signup` creates (its id is assigned by the table). */
  function NewLocalUser(email: string, name: string, dateOfBirth: Option<string>, password: Option<string>,
                        hash: string -> string): (u: User)
    ensures u.email == email && u.name == name && !u.isVerified
    ensures u.googleId == None && u.avatar == None
    ensures u.password.Some? <==> Truthy(password)
    ensures u.password.Some? ==> u.password.value == hash(password.value)
    ensures u.dateOfBirth == OrUndefined(dateOfBirth)
  {
    User(0, email, name, OrUndefined(dateOfBirth), if Truthy(password) then Some(hash(password.value)) else None,
         None, None, false)
  }

  /** The record Google sign-up creates: verified, with the Google subject and picture. */
  function NewGoogleUser(sub: string, email: string, name: string, picture: Option<string>): (u: User)
    ensures u.email == email && u.name == name && u.isVerified
    ensures u.googleId == Some(sub) && u.avatar == picture && u.password == None && u.dateOfBirth == None
  {
    User(0, email, name, None, None, Some(sub), picture, true)
  }

  /** Linking an existing account to Google: only googleId, avatar and isVerified change. */
  function LinkGoogle(u: User, sub: string, picture: Option<string>): (r: User)
    ensures r.id == u.id && r.email == u.email && r.name == u.name
    ensures r.password == u.password && r.dateOfBirth == u.dateOfBirth
    ensures r.googleId == Some(sub) && r.isVerified
    ensures Truthy(picture) ==> r.avatar == picture
    ensures !Truthy(picture) ==> r.avatar == u.avatar
  {
    u.(googleId := Some(sub), avatar := OrElse(picture, u.avatar), isVerified := true)
  }

  /**
   * `mode = 'login'`: the mode of a Google request, a missing member taken as `login`. A
   * `null` mode stays `null`, so it is not the login mode and an unknown e-mail signs up.
   */
  function GoogleMode(mode: BodyField): (m: BodyField)
    ensures m == Given("login") <==> mode == Missing || mode == Given("login")
    ensures mode != Missing ==> m == mode
    ensures m != Missing
  {
    if mode == Missing then Given("login") else mode
  }

  /** Looking a user up after replacing its record by one with the same e-mail finds the new record. */
  lemma LookupAfterUpdate(users: seq<User>, u: User, updated: User)
    requires UniqueUserIds(users) && UniqueEmails(users)
    requires u in users && updated.id == u.id && updated.email == u.email
    ensures UniqueEmails(UpdateUser(users, u.id, updated))
    ensures UserByEmail(UpdateUser(users, u.id, updated), u.email) == Some(updated)
  {
    var i :| 0 <= i < |users| && users[i] == u;
    var r := UpdateUser(users, u.id, updated);
    forall a, b | 0 <= a < b < |r|
      ensures r[a].email != r[b].email
    {
      assert r[a].email == users[a].email && r[b].email == users[b].email;
    }
    UserByEmailUnique(r, u.email, i);
  }

  /** The handlers, over the user table and the code table. */
  class AuthController {
    const db: Db
    const otps: Otp.OtpStore

    ghost predicate Valid()
      reads this, db, otps
    {
      db.Valid() && otps.Valid()
    }

    constructor (db: Db, otps: Otp.OtpStore)
      ensures this.db == db && this.otps == otps
    {
      this.db := db;
      this.otps := otps;
    }

    /**
     * `signup`: refuse a taken e-mail with 409; otherwise create an unverified user (the
     * password hashed only when one is given) and issue a SIGNUP code bound to it.
     */
    method Signup(email: string, name: string, dateOfBirth: Option<string>, password: Option<string>,
                  hash: string -> string, code: nat, now: int) returns (reply: AuthReply)
      requires Valid()
      requires Otp.MinCode <= code <= Otp.MaxCode
      modifies db, otps
      ensures Valid()
      ensures db.notes == old(db.notes)
      ensures UserByEmail(old(db.users), email).Some? ==>
        && reply == Fail(409, "User with this email already exists")
        && db.users == old(db.users) && otps.tokens == old(otps.tokens)
      ensures UserByEmail(old(db.users), email).None? ==>
        && reply == AuthReply(201, true, "User created successfully",
                              OtpSent("Please check your email for verification code", email), NoCookie)
        && db.users == old(db.users) + [NewLocalUser(email, name, dateOfBirth, password, hash).(id := old(db.nextUserId))]
        && otps.tokens == Otp.Issue(old(otps.tokens), email, Otp.Signup, Text.DecimalString(code), now,
                                    Some(old(db.nextUserId)))
    {
      var existing := UserByEmail(db.users, email);
      if existing.Some? {
        return Fail(409, "User with this email already exists");
      }
      var user := db.CreateUser(NewLocalUser(email, name, dateOfBirth, password, hash));
      var _ := otps.GenerateAndSendOtp(email, Otp.Signup, code, now, Some(user.id));
      reply := AuthReply(201, true, "User created successfully",
                         OtpSent("Please check your email for verification code", email), NoCookie);
    }

    /**
     * `login` with a password, a LOGIN code, or both. The code is checked (and consumed)
     * only once the account and password checks have passed; the reply follows `LoginLadder`.
     */
    method Login(email: string, password: Option<string>, otp: Option<string>, remember: bool, production: bool,
                 now: int, compare: (string, string) -> bool, sign: nat -> string) returns (reply: AuthReply)
      requires Valid()
      modifies otps
      ensures Valid()
      ensures
        var user := UserByEmail(db.users, email);
        var passwordOk := PasswordMatches(user, password, compare);
        var consulted := PasswordStepPasses(user, password, passwordOk) && Truthy(otp);
        var otpOk := consulted && Otp.FirstMatch(old(otps.tokens), email, otp.value, Otp.Login, now).Some?;
        && (otpOk ==>
              otps.tokens == Otp.Consume(old(otps.tokens),
                                         Otp.FirstMatch(old(otps.tokens), email, otp.value, Otp.Login, now).value))
        && (!otpOk ==> otps.tokens == old(otps.tokens))
        && reply == match LoginLadder(user, password, otp, passwordOk, otpOk)
                    case Some(failure) => failure
                    case None => SessionReply("Login successful", user.value, sign, remember, production)
    {
      var user := UserByEmail(db.users, email);
      if user.None? {
        return Fail(401, "Invalid credentials");
      }
      if Truthy(password) {
        if !Truthy(user.value.password) {
          return Fail(400, "Please use Google sign-in for this account");
        }
        if !compare(password.value, user.value.password.value) {
          return Fail(401, "Invalid credentials");
        }
      }
      if Truthy(otp) {
        var valid := otps.VerifyOtp(email, otp.value, Otp.Login, now);
        if !valid {
          return Fail(401, "Invalid or expired OTP");
        }
      }
      if !Truthy(password) && !Truthy(otp) {
        return Fail(400, "Password or OTP is required");
      }
      if !user.value.isVerified {
        return Fail(401, "Please verify your email address");
      }
      reply := SessionReply("Login successful", user.value, sign, remember, production);
    }

    /** `sendOtp`: 404 for an unknown e-mail; otherwise issue a LOGIN code bound to the user. */
    method SendOtp(email: string, code: nat, now: int) returns (reply: AuthReply)
      requires Valid()
      requires Otp.MinCode <= code <= Otp.MaxCode
      modifies otps
      ensures Valid()
      ensures UserByEmail(db.users, email).None? ==>
        reply == Fail(404, "User not found") && otps.tokens == old(otps.tokens)
      ensures UserByEmail(db.users, email).Some? ==>
        && reply == AuthReply(200, true, "OTP sent successfully", OtpSent("OTP sent to your email", email), NoCookie)
        && otps.tokens == Otp.Issue(old(otps.tokens), email, Otp.Login, Text.DecimalString(code), now,
                                    Some(UserByEmail(db.users, email).value.id))
    {
      var user := UserByEmail(db.users, email);
      if user.None? {
        return Fail(404, "User not found");
      }
      var _ := otps.GenerateAndSendOtp(email, Otp.Login, code, now, Some(user.value.id));
      reply := AuthReply(200, true, "OTP sent successfully", OtpSent("OTP sent to your email", email), NoCookie);
    }

    /**
     * `verifyOtp`: accept an unused, unexpired code of the named purpose (SIGNUP when the
     * member is missing), consume it, mark the account verified for SIGNUP, and open a
     * session. This is the corrected handler: a request without an e-mail or a code is
     * refused like a wrong code, and nothing is consumed.
     */
    method VerifyOtp(email: Option<string>, otp: Option<string>, kind: BodyField, remember: bool, production: bool,
                     now: int, sign: nat -> string) returns (reply: AuthReply)
      requires Valid()
      modifies db, otps
      ensures Valid()
      ensures db.notes == old(db.notes)
      ensures reply.success ==> AcceptedRow(old(otps.tokens), email, otp, kind, now).Some?
      ensures
        var row := AcceptedRow(old(otps.tokens), email, otp, kind, now);
        && (row.None? ==>
              && reply == Fail(400, "Invalid or expired OTP")
              && otps.tokens == old(otps.tokens) && db.users == old(db.users))
        && (row.Some? ==> otps.tokens == Otp.Consume(old(otps.tokens), row.value))
      ensures
        var row := AcceptedRow(old(otps.tokens), email, otp, kind, now);
        row.Some? ==>
          var user := UserByEmail(old(db.users), email.value);
          user.None? ==>
            && db.users == old(db.users)
            && reply == (if RequestedType(kind) == Some(Otp.Signup) then Fail(500, "OTP verification failed")
                         else Fail(404, "User not found"))
      ensures
        var row := AcceptedRow(old(otps.tokens), email, otp, kind, now);
        row.Some? ==>
          var user := UserByEmail(old(db.users), email.value);
          user.Some? && RequestedType(kind) == Some(Otp.Signup) ==>
            var verified := user.value.(isVerified := true);
            && db.users == UpdateUser(old(db.users), verified.id, verified)
            && reply == SessionReply("OTP verified successfully", verified, sign, remember, production)
      ensures
        var row := AcceptedRow(old(otps.tokens), email, otp, kind, now);
        row.Some? ==>
          var user := UserByEmail(old(db.users), email.value);
          user.Some? && RequestedType(kind) != Some(Otp.Signup) ==>
            && db.users == old(db.users)
            && reply == SessionReply("OTP verified successfully", user.value, sign, remember, production)
    {
      var purpose := RequestedType(kind);
      if email.None? || otp.None? || purpose.None? {
        return Fail(400, "Invalid or expired OTP");
      }
      var valid := otps.VerifyOtp(email.value, otp.value, purpose.value, now);
      if !valid {
        return Fail(400, "Invalid or expired OTP");
      }
      if purpose.value == Otp.Signup {
        var existing := UserByEmail(db.users, email.value);
        if existing.None? {
          return Fail(500, "OTP verification failed");
        }
        var verified := existing.value.(isVerified := true);
        LookupAfterUpdate(db.users, existing.value, verified);
        db.PutUser(verified.id, verified);
      }
      var user := UserByEmail(db.users, email.value);
      if user.None? {
        return Fail(404, "User not found");
      }
      reply := SessionReply("OTP verified successfully", user.value, sign, remember, production);
    }

    /**
     * `googleAuth`: an unknown e-mail is refused in login mode and creates a verified Google
     * user in any other mode; a known account without a Google id is linked; then a session.
     */
    method GoogleAuth(ticket: GoogleTicket, mode: BodyField, remember: bool, production: bool,
                      sign: nat -> string) returns (reply: AuthReply)
      requires Valid()
      modifies db
      ensures Valid()
      ensures db.notes == old(db.notes)
      ensures ticket.TokenRejected? ==> reply == Fail(500, "Google authentication failed") && db.users == old(db.users)
      ensures ticket.NoPayload? ==> reply == Fail(400, "Invalid Google token") && db.users == old(db.users)
      ensures ticket.Payload? && UserByEmail(old(db.users), ticket.email).None? && GoogleMode(mode) == Given("login") ==>
        && reply == Fail(404, "No account found with this email address. Please sign up first.")
        && db.users == old(db.users)
      ensures ticket.Payload? && UserByEmail(old(db.users), ticket.email).None? && GoogleMode(mode) != Given("login") ==>
        var created := NewGoogleUser(ticket.sub, ticket.email, ticket.name, ticket.picture).(id := old(db.nextUserId));
        && db.users == old(db.users) + [created]
        && reply == SessionReply("Google authentication successful", created, sign, remember, production)
      ensures ticket.Payload? && UserByEmail(old(db.users), ticket.email).Some? ==>
        var existing := UserByEmail(old(db.users), ticket.email).value;
        if Truthy(existing.googleId) then
          && db.users == old(db.users)
          && reply == SessionReply("Google authentication successful", existing, sign, remember, production)
        else
          var linked := LinkGoogle(existing, ticket.sub, ticket.picture);
          && db.users == UpdateUser(old(db.users), existing.id, linked)
          && reply == SessionReply("Google authentication successful", linked, sign, remember, production)
    {
      if ticket.TokenRejected? {
        return Fail(500, "Google authentication failed");
      }
      if ticket.NoPayload? {
        return Fail(400, "Invalid Google token");
      }
      var user := UserByEmail(db.users, ticket.email);
      var signedIn: User;
      if user.None? {
        if GoogleMode(mode) == Given("login") {
          return Fail(404, "No account found with this email address. Please sign up first.");
        }
        signedIn := db.CreateUser(NewGoogleUser(ticket.sub, ticket.email, ticket.name, ticket.picture));
      } else if !Truthy(user.value.googleId) {
        signedIn := LinkGoogle(user.value, ticket.sub, ticket.picture);
        LookupAfterUpdate(db.users, user.value, signedIn);
        db.PutUser(signedIn.id, signedIn);
      } else {
        signedIn := user.value;
      }
      reply := SessionReply("Google authentication successful", signedIn, sign, remember, production);
    }
  }
}
