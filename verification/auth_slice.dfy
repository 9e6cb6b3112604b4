/**
 * The client's auth store: the signed-in user, the session token, the loading and
 * start-up flags, the last error and whether the user counts as signed in. The reducers
 * change it in place; the request thunks also write the token to the browser's stores.
 * Server replies are parameters: a response or nothing (the request failed) and the
 * message the server sent with a failure.
 */
module AuthSlice {
  import opened Base
  import opened Storage

  /** The user as the client receives it. */
  datatype ClientUser = ClientUser(id: string, email: string, name: string, dateOfBirth: Option<string>,
                                   avatar: Option<string>, isVerified: bool, createdAt: string, updatedAt: string)

  /** The data of a successful login, code check or Google sign-in. */
  datatype AuthResponse = AuthResponse(user: ClientUser, token: string)

  /** The five request thunks that share the loading flag and the error. */
  datatype AuthRequest = Signup | Login | SendOtp | VerifyOtp | GoogleAuth

  /** The key the token is stored under in both stores. */
  const TokenKey: string := "token"

  /** The requests that end in a session: their success carries a user and a token. */
  predicate OpensSession(request: AuthRequest) {
    request == Login || request == VerifyOtp || request == GoogleAuth
  }

  /** The message a thunk rejects with when the server sent none. */
  function FallbackMessage(request: AuthRequest): (m: string)
    ensures m != ""
    ensures request == Signup <==> m == "Signup failed"
    ensures request == Login <==> m == "Login failed"
    ensures request == SendOtp <==> m == "Failed to send OTP"
    ensures request == VerifyOtp <==> m == "OTP verification failed"
    ensures request == GoogleAuth <==> m == "Google authentication failed"
  {
    match request
    case Signup => "Signup failed"
    case Login => "Login failed"
    case SendOtp => "Failed to send OTP"
    case VerifyOtp => "OTP verification failed"
    case GoogleAuth => "Google authentication failed"
  }

  /**
   * `localStorage.getItem('token') || sessionStorage.getItem('token')`, the token the
   * request interceptor and start-up both use: the persistent one when it is non-empty,
   * else the tab's.
   */
  function StoredToken(local: map<string, string>, session: map<string, string>): (r: Option<string>)
    ensures Truthy(r) <==> Truthy(Get(local, TokenKey)) || Truthy(Get(session, TokenKey))
    ensures Truthy(Get(local, TokenKey)) ==> r == Get(local, TokenKey)
    ensures !Truthy(Get(local, TokenKey)) ==> r == Get(session, TokenKey)
  {
    OrElse(Get(local, TokenKey), Get(session, TokenKey))
  }

  /**
   * Removing the token from `localStorage` alone leaves a token stored in the tab's
   * store in effect: it becomes the stored token.
   */
  lemma TabTokenOutlivesLocalRemoval(local: map<string, string>, session: map<string, string>)
    requires Truthy(Get(session, TokenKey))
    ensures StoredToken(local - {TokenKey}, session) == Get(session, TokenKey)
    ensures Truthy(StoredToken(local - {TokenKey}, session))
  {
    assert Get(local - {TokenKey}, TokenKey) == None;
  }

  /** Removing the token from both stores leaves no stored token. */
  lemma NoTokenAfterRemovingBoth(local: map<string, string>, session: map<string, string>)
    ensures !Truthy(StoredToken(local - {TokenKey}, session - {TokenKey}))
  {
    assert Get(local - {TokenKey}, TokenKey) == None;
    assert Get(session - {TokenKey}, TokenKey) == None;
  }

  /** `AuthState` and the stores it writes, updated in place. */
  class AuthStore {
    var user: Option<ClientUser>
    var token: Option<string>
    var isLoading: bool
    var isInitializing: bool
    var error: Option<string>
    var isAuthenticated: bool
    const storage: BrowserStorage

    /** The initial state: the token is read from `localStorage` only; start-up is pending. */
    constructor (storage: BrowserStorage)
      ensures this.storage == storage
      ensures token == Get(storage.local, TokenKey)
      ensures user == None && !isLoading && isInitializing && error == None && !isAuthenticated
    {
      this.storage := storage;
      user := None;
      token := Get(storage.local, TokenKey);
      isLoading := false;
      isInitializing := true;
      error := None;
      isAuthenticated := false;
    }

    /** `clearError`. */
    method ClearError()
      modifies this
      ensures error == None
      ensures user == old(user) && token == old(token) && isAuthenticated == old(isAuthenticated)
      ensures isLoading == old(isLoading) && isInitializing == old(isInitializing)
    {
      error := None;
    }

    /** `setUser`: the user counts as signed in; the token is left as it is. */
    method SetUser(u: ClientUser)
      modifies this
      ensures user == Some(u) && isAuthenticated
      ensures token == old(token) && error == old(error)
      ensures isLoading == old(isLoading) && isInitializing == old(isInitializing)
    {
      user := Some(u);
      isAuthenticated := true;
    }

    /** `clearAuth`: forget the user, the token and the error, and drop the persistent token. */
    method ClearAuth()
      modifies this, storage
      ensures user == None && token == None && !isAuthenticated && error == None
      ensures isLoading == old(isLoading) && isInitializing == old(isInitializing)
      ensures storage.local == old(storage.local) - {TokenKey}
      ensures storage.session == old(storage.session)
    {
      user := None;
      token := None;
      isAuthenticated := false;
      error := None;
      storage.RemoveLocal(TokenKey);
    }

    /** The `pending` case of signup, login, send-otp, verify-otp and Google sign-in. */
    method Pending(request: AuthRequest)
      modifies this
      ensures isLoading && error == None
      ensures user == old(user) && token == old(token) && isAuthenticated == old(isAuthenticated)
      ensures isInitializing == old(isInitializing)
    {
      isLoading := true;
      error := None;
    }

    /** `signup.fulfilled` and `sendOtp.fulfilled`: a code was sent; nobody is signed in by it. */
    method CodeSentFulfilled()
      modifies this
      ensures !isLoading && error == None
      ensures user == old(user) && token == old(token) && isAuthenticated == old(isAuthenticated)
      ensures isInitializing == old(isInitializing)
    {
      isLoading := false;
      error := None;
    }

    /** `login`, `verifyOtp` and `googleAuth` fulfilled: the payload's user and token are signed in. */
    method SessionFulfilled(payload: AuthResponse)
      modifies this
      ensures user == Some(payload.user) && token == Some(payload.token) && isAuthenticated
      ensures !isLoading && error == None
      ensures isInitializing == old(isInitializing)
    {
      isLoading := false;
      user := Some(payload.user);
      token := Some(payload.token);
      isAuthenticated := true;
      error := None;
    }

    /**
     * The `rejected` case of the five requests: the error is the server's message or the
     * request's fallback; only a failed login also signs the user out of the state.
     */
    method Rejected(request: AuthRequest, serverMessage: Option<string>)
      modifies this
      ensures !isLoading
      ensures error == Some(OrDefault(serverMessage, FallbackMessage(request))) && error.value != ""
      ensures request == Login ==> !isAuthenticated
      ensures request != Login ==> isAuthenticated == old(isAuthenticated)
      ensures user == old(user) && token == old(token) && isInitializing == old(isInitializing)
    {
      isLoading := false;
      error := Some(OrDefault(serverMessage, FallbackMessage(request)));
      if request == Login {
        isAuthenticated := false;
      }
    }

    /** `initializeAuth.pending`. */
    method InitializePending()
      modifies this
      ensures isInitializing
      ensures user == old(user) && token == old(token) && isAuthenticated == old(isAuthenticated)
      ensures isLoading == old(isLoading) && error == old(error)
    {
      isInitializing := true;
    }

    /** `initializeAuth.fulfilled` and `initializeAuth.rejected`: start-up is over either way. */
    method InitializeSettled()
      modifies this
      ensures !isInitializing
      ensures user == old(user) && token == old(token) && isAuthenticated == old(isAuthenticated)
      ensures isLoading == old(isLoading) && error == old(error)
    {
      isInitializing := false;
    }

    /** `logout.pending`: only the loading flag; the error is kept. */
    method LogoutPending()
      modifies this
      ensures isLoading
      ensures user == old(user) && token == old(token) && isAuthenticated == old(isAuthenticated)
      ensures isInitializing == old(isInitializing) && error == old(error)
    {
      isLoading := true;
    }

    /** `logout.fulfilled`: signed out, error cleared. */
    method LogoutFulfilled()
      modifies this
      ensures user == None && token == None && !isAuthenticated && !isLoading && error == None
      ensures isInitializing == old(isInitializing)
    {
      isLoading := false;
      user := None;
      token := None;
      isAuthenticated := false;
      error := None;
    }

    /** `logout.rejected`: signed out all the same; the error is not touched. */
    method LogoutRejected()
      modifies this
      ensures user == None && token == None && !isAuthenticated && !isLoading
      ensures error == old(error) && isInitializing == old(isInitializing)
    {
      isLoading := false;
      user := None;
      token := None;
      isAuthenticated := false;
    }

    /** The thunks' storage step: the token goes to `localStorage` when remembered, else to the tab's store. */
    method KeepToken(t: string, remember: bool)
      modifies storage
      ensures remember ==> storage.local == old(storage.local)[TokenKey := t] && storage.session == old(storage.session)
      ensures !remember ==> storage.session == old(storage.session)[TokenKey := t] && storage.local == old(storage.local)
    {
      if remember {
        storage.SetLocal(TokenKey, t);
      } else {
        storage.SetSession(TokenKey, t);
      }
    }

    /**
     * A login, code check or Google sign-in from start to end: `pending`, then on a
     * response the token is kept in exactly one store and the session is signed in, or
     * on a failure the request is `rejected` and the stores are untouched.
     */
    method SessionRequest(request: AuthRequest, response: Option<AuthResponse>, serverMessage: Option<string>,
                          remember: bool)
      requires OpensSession(request)
      modifies this, storage
      ensures !isLoading && isInitializing == old(isInitializing)
      ensures response.Some? ==>
        && user == Some(response.value.user) && token == Some(response.value.token)
        && isAuthenticated && error == None
        && (remember ==> storage.local == old(storage.local)[TokenKey := response.value.token]
                         && storage.session == old(storage.session))
        && (!remember ==> storage.session == old(storage.session)[TokenKey := response.value.token]
                          && storage.local == old(storage.local))
      ensures response.None? ==>
        && user == old(user) && token == old(token)
        && error == Some(OrDefault(serverMessage, FallbackMessage(request)))
        && isAuthenticated == (request != Login && old(isAuthenticated))
        && storage.local == old(storage.local) && storage.session == old(storage.session)
    {
      Pending(request);
      if response.Some? {
        KeepToken(response.value.token, remember);
        SessionFulfilled(response.value);
      } else {
        Rejected(request, serverMessage);
      }
    }

    /**
     * The `logout` thunk as written: the persistent token is removed whether or not the
     * server call succeeds, but a token kept in the tab's store stays and remains the
     * stored token.
     */
    method LogoutAsWritten(serverOk: bool)
      modifies this, storage
      ensures user == None && token == None && !isAuthenticated && !isLoading
      ensures serverOk ==> error == None
      ensures !serverOk ==> error == old(error)
      ensures storage.local == old(storage.local) - {TokenKey}
      ensures storage.session == old(storage.session)
      ensures Truthy(Get(old(storage.session), TokenKey)) ==>
        StoredToken(storage.local, storage.session) == Get(old(storage.session), TokenKey)
    {
      LogoutPending();
      storage.RemoveLocal(TokenKey);
      if serverOk {
        LogoutFulfilled();
      } else {
        LogoutRejected();
      }
      if Truthy(Get(old(storage.session), TokenKey)) {
        TabTokenOutlivesLocalRemoval(old(storage.local), storage.session);
      }
    }

    /**
     * The `logout` thunk with the token removed from both stores, as start-up already
     * does for a rejected token: afterwards no stored token is left to sign in with.
     */
    method Logout(serverOk: bool)
      modifies this, storage
      ensures user == None && token == None && !isAuthenticated && !isLoading
      ensures serverOk ==> error == None
      ensures !serverOk ==> error == old(error)
      ensures storage.local == old(storage.local) - {TokenKey}
      ensures storage.session == old(storage.session) - {TokenKey}
      ensures !Truthy(StoredToken(storage.local, storage.session))
    {
      LogoutPending();
      storage.RemoveLocal(TokenKey);
      storage.RemoveSession(TokenKey);
      if serverOk {
        LogoutFulfilled();
      } else {
        LogoutRejected();
      }
      NoTokenAfterRemovingBoth(old(storage.local), old(storage.session));
    }

    /**
     * `initializeAuth` from start to end. `profile` is the profile request's outcome:
     * nothing when it failed, else the user it returned, if any. With a stored token, a
     * failure drops the token from both stores; without one, the cookie session is tried
     * and succeeds only with a user. Returns whether the thunk was fulfilled.
     */
    method InitializeAuth(profile: Option<Option<ClientUser>>) returns (fulfilled: bool)
      modifies this, storage
      ensures var hadToken := Truthy(StoredToken(old(storage.local), old(storage.session)));
        fulfilled == (profile.Some? && (hadToken || profile.value.Some?))
      ensures !isInitializing
      ensures profile.Some? && profile.value.Some? ==> user == profile.value && isAuthenticated
      ensures !(profile.Some? && profile.value.Some?) ==> user == old(user) && isAuthenticated == old(isAuthenticated)
      ensures token == old(token) && isLoading == old(isLoading) && error == old(error)
      ensures Truthy(StoredToken(old(storage.local), old(storage.session))) && profile.None? ==>
        storage.local == old(storage.local) - {TokenKey} && storage.session == old(storage.session) - {TokenKey}
      ensures !(Truthy(StoredToken(old(storage.local), old(storage.session))) && profile.None?) ==>
        storage.local == old(storage.local) && storage.session == old(storage.session)
    {
      InitializePending();
      var stored := StoredToken(storage.local, storage.session);
      if Truthy(stored) {
        if profile.None? {
          storage.RemoveLocal(TokenKey);
          storage.RemoveSession(TokenKey);
          InitializeSettled();
          return false;
        }
        if profile.value.Some? {
          SetUser(profile.value.value);
        }
        InitializeSettled();
        return true;
      }
      if profile.Some? && profile.value.Some? {
        SetUser(profile.value.value);
        InitializeSettled();
        return true;
      }
      InitializeSettled();
      return false;
    }
  }
}
