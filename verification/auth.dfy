/** The session context (`contects/AuthProvider.jsx`): sign-up, password and Google
    sign-in, sign-out and the auth-state listener, each paired with the token round that
    stores a bearer token under `auth-token`, and the admin marker under `userRole`.
    The identity provider, the ID-token call and the fallback token endpoint are oracles
    passed in as values. */
module Auth {
  import opened Wrappers
  import opened Entities
  import opened Storage
  import opened Text
  import HttpClient

  datatype AuthState = AuthState(user: Option<User>, loading: bool, error: Option<string>, storage: Store)

  /** A thrown error: the provider's error code ("" when the error has none) and its message. */
  datatype Thrown = Thrown(code: string, message: string)

  /** What an identity-provider call settles with. */
  datatype ProviderResult = Signed(user: User) | Rejected(err: Thrown)

  /** The fallback endpoint's JSON body; `token` and `message` are "" when absent. */
  datatype ServerReply = ServerReply(success: bool, token: string, message: string)

  /** How the two token sources answer: `getIdToken(true)` (a token or the message it threw
      with) and the fallback endpoint (a parsed body or the message the fetch threw with). */
  datatype TokenSource = TokenSource(idToken: Result<string, string>, server: Result<ServerReply, string>)

  /** The build-time admin credentials; `None` when the variable is not set. */
  datatype AdminEnv = AdminEnv(email: Option<string>, password: Option<string>)

  const AdminRole: string := "admin"

  const ServerAuthFailed: string := "Failed to authenticate with server. Please try again."
  const ServerTokenMissing: string := "Failed to get token from server"
  const EmailInUseCode: string := "auth/email-already-in-use"
  const EmailInUse: string := "Email is already registered. Please login instead."
  const SignupFailed: string := "Failed to create account. Please try again."
  const InvalidCredentialCode: string := "auth/invalid-credential"
  const InvalidCredential: string := "Invalid email or password."
  const TooManyRequestsCode: string := "auth/too-many-requests"
  const TooManyRequests: string := "Too many failed attempts. Please try again later."
  const LoginFailed: string := "Failed to login. Please try again."
  const GoogleFailed: string := "Failed to login with Google. Please try again."
  const LogoutFailed: string := "Failed to logout. Please try again."

  /** `isAdmin()`. */
  predicate IsAdmin(st: Store)
    ensures IsAdmin(st) <==> UserRoleKey in st && st[UserRoleKey] == Str(AdminRole)
  {
    GetText(st, UserRoleKey) == Some(AdminRole)
  }

  /** `getToken()`. */
  function GetToken(st: Store): (r: Option<string>)
    ensures r.Some? <==> AuthTokenKey in st && st[AuthTokenKey].Str?
    ensures r.Some? ==> r.value == st[AuthTokenKey].text
  {
    GetText(st, AuthTokenKey)
  }

  // ---------------------------------------------------------------------------
  // The token round

  /** `generateToken(currentUser)`: the ID token if the provider issues one, else the
      fallback endpoint's token if it reports success with a token; otherwise the error
      banner is set and the error propagates. */
  function GenerateToken(s: AuthState, u: Option<User>, src: TokenSource): (r: (AuthState, Result<Option<string>, Thrown>))
    ensures r.0.user == s.user && r.0.loading == s.loading
    ensures u.None? ==> r == (s, Ok(None))
    ensures r.1.Ok? && r.1.value.Some? ==>
      GetToken(r.0.storage) == r.1.value && SameExcept(s.storage, r.0.storage, AuthTokenKey) && r.0.error == s.error
    ensures r.1.Ok? && r.1.value.Some? <==>
      u.Some? && (src.idToken.Ok? || (src.server.Ok? && src.server.value.success && src.server.value.token != ""))
    ensures u.Some? && src.idToken.Ok? ==> r.1 == Ok(Some(src.idToken.value))
    ensures r.1.Err? ==> r.0.storage == s.storage && r.0.error == Some(ServerAuthFailed) && r.1.error.code == ""
    ensures r.1.Err? <==> u.Some? && !r.1.Ok?
  {
    match u
    case None => (s, Ok(None))
    case Some(_) =>
      match src.idToken
      case Ok(t) => (s.(storage := Put(s.storage, AuthTokenKey, Str(t))), Ok(Some(t)))
      case Err(_) =>
        var failed := s.(error := Some(ServerAuthFailed));
        match src.server
        case Ok(reply) =>
          if reply.success && reply.token != "" then
            (s.(storage := Put(s.storage, AuthTokenKey, Str(reply.token))), Ok(Some(reply.token)))
          else
            (failed, Err(Thrown("", OrElse(reply.message, ServerTokenMissing))))
        case Err(m) => (failed, Err(Thrown("", m)))
  }

  /** When the provider issues an ID token the fallback endpoint is never consulted. */
  lemma IdTokenWins(s: AuthState, u: User, t: string, a: Result<ServerReply, string>, b: Result<ServerReply, string>)
    ensures GenerateToken(s, Some(u), TokenSource(Ok(t), a)) == GenerateToken(s, Some(u), TokenSource(Ok(t), b))
  {
  }

  /** `refreshToken(currentUser)`: the given user, or the signed-in one. */
  function RefreshToken(s: AuthState, current: Option<User>, src: TokenSource): (r: (AuthState, Result<Option<string>, Thrown>))
    ensures current.Some? ==> r == GenerateToken(s, current, src)
    ensures current.None? ==> r == GenerateToken(s, s.user, src)
    ensures current.None? && s.user.None? ==> r == (s, Ok(None))
  {
    GenerateToken(s, if current.Some? then current else s.user, src)
  }

  // ---------------------------------------------------------------------------
  // Sign-up and sign-in

  /** `createUser(email, password)`; the provider's answer is `provider`. */
  function CreateUser(s: AuthState, provider: ProviderResult, src: TokenSource): (r: (AuthState, Result<User, Thrown>))
    ensures !r.0.loading
    ensures provider.Rejected? ==> r.1 == Err(provider.err) && r.0.user == s.user && r.0.storage == s.storage
    ensures provider.Rejected? && provider.err.code == EmailInUseCode ==> r.0.error == Some(EmailInUse)
    ensures provider.Rejected? && provider.err.code != EmailInUseCode ==> r.0.error == Some(SignupFailed)
    ensures provider.Signed? ==> r.0.user == Some(provider.user)
    ensures r.1.Ok? <==> provider.Signed? && GenerateToken(s, Some(provider.user), src).1.Ok?
    ensures r.1.Ok? ==> r.1.value == provider.user && r.0.error == None && GetToken(r.0.storage).Some?
    ensures provider.Signed? && r.1.Err? ==> r.0.error == Some(SignupFailed) && r.0.storage == s.storage
  {
    match provider
    case Rejected(e) =>
      var msg := if e.code == EmailInUseCode then EmailInUse else SignupFailed;
      (s.(error := Some(msg), loading := false), Err(e))
    case Signed(u) =>
      var signed := s.(user := Some(u), error := None, loading := true);
      var (t, res) := GenerateToken(signed, Some(u), src);
      match res
      case Err(e) =>
        var msg := if e.code == EmailInUseCode then EmailInUse else SignupFailed;
        (t.(error := Some(msg), loading := false), Err(e))
      case Ok(_) => (t.(loading := false), Ok(u))
  }

  /** The message a failed password sign-in shows for an error code. */
  function LoginMessage(code: string): (m: string)
    ensures m in {InvalidCredential, TooManyRequests, LoginFailed}
    ensures m == InvalidCredential <==> code == InvalidCredentialCode
    ensures m == TooManyRequests <==> code == TooManyRequestsCode
  {
    if code == InvalidCredentialCode then InvalidCredential
    else if code == TooManyRequestsCode then TooManyRequests
    else LoginFailed
  }

  /** The credentials the password sign-in treats as the administrator's. */
  predicate IsAdminCredentials(admin: AdminEnv, email: string, password: string) {
    admin.email == Some(email) && admin.password == Some(password)
  }

  /** `login(email, password)`. */
  function Login(s: AuthState, email: string, password: string, admin: AdminEnv,
                 provider: ProviderResult, src: TokenSource): (r: (AuthState, Result<User, Thrown>))
    ensures !r.0.loading
    ensures provider.Rejected? ==>
      r.1 == Err(provider.err) && r.0.user == s.user && r.0.storage == s.storage
      && r.0.error == Some(LoginMessage(provider.err.code))
    ensures provider.Signed? ==> r.0.user == Some(provider.user)
    ensures r.1.Ok? <==> provider.Signed? && GenerateToken(s, Some(provider.user), src).1.Ok?
    ensures r.1.Ok? ==> r.1.value == provider.user && r.0.error == None && GetToken(r.0.storage).Some?
    ensures provider.Signed? && r.1.Err? ==> r.0.error == Some(LoginFailed) && r.0.storage == s.storage
    ensures IsAdmin(r.0.storage) <==> IsAdmin(s.storage) || (r.1.Ok? && IsAdminCredentials(admin, email, password))
  {
    match provider
    case Rejected(e) => (s.(error := Some(LoginMessage(e.code)), loading := false), Err(e))
    case Signed(u) =>
      var signed := s.(user := Some(u), error := None, loading := true);
      var (t, res) := GenerateToken(signed, Some(u), src);
      match res
      case Err(e) => (t.(error := Some(LoginMessage(e.code)), loading := false), Err(e))
      case Ok(_) =>
        var st := if IsAdminCredentials(admin, email, password) then Put(t.storage, UserRoleKey, Str(AdminRole)) else t.storage;
        assert AuthTokenKey != UserRoleKey;
        (t.(storage := st, loading := false), Ok(u))
  }

  /** The Google account the sign-in treats as the administrator's: its email, when the
      account has one, equals the configured admin email. */
  predicate IsAdminAccount(admin: AdminEnv, u: User) {
    u.email != "" && admin.email == Some(u.email)
  }

  /** `loginWithGoogle()`. */
  function LoginWithGoogle(s: AuthState, admin: AdminEnv, provider: ProviderResult, src: TokenSource): (r: (AuthState, Result<User, Thrown>))
    ensures !r.0.loading
    ensures provider.Rejected? ==> r.1 == Err(provider.err) && r.0.user == s.user && r.0.storage == s.storage
    ensures r.1.Err? ==> r.0.error == Some(GoogleFailed)
    ensures provider.Signed? ==> r.0.user == Some(provider.user)
    ensures r.1.Ok? <==> provider.Signed? && GenerateToken(s, Some(provider.user), src).1.Ok?
    ensures r.1.Ok? ==> r.0.error == None && GetToken(r.0.storage).Some?
    ensures IsAdmin(r.0.storage) <==> IsAdmin(s.storage) || (r.1.Ok? && IsAdminAccount(admin, provider.user))
  {
    match provider
    case Rejected(e) => (s.(error := Some(GoogleFailed), loading := false), Err(e))
    case Signed(u) =>
      var signed := s.(user := Some(u), error := None, loading := true);
      var (t, res) := GenerateToken(signed, Some(u), src);
      match res
      case Err(e) => (t.(error := Some(GoogleFailed), loading := false), Err(e))
      case Ok(_) =>
        var st := if IsAdminAccount(admin, u) then Put(t.storage, UserRoleKey, Str(AdminRole)) else t.storage;
        assert AuthTokenKey != UserRoleKey;
        (t.(storage := st, loading := false), Ok(u))
  }

  // ---------------------------------------------------------------------------
  // Sign-out and the auth-state listener

  /** `logOut()`; `signOut` is what the provider's sign-out settles with. */
  function LogOut(s: AuthState, signOut: Result<(), Thrown>): (r: (AuthState, Result<(), Thrown>))
    ensures !r.0.loading
    ensures r.1 == signOut
    ensures signOut.Ok? ==> r.0.user.None? && r.0.error.None?
    ensures signOut.Ok? ==> !IsAdmin(r.0.storage) && GetToken(r.0.storage).None?
    ensures signOut.Ok? ==> forall k :: k != UserRoleKey && k != AuthTokenKey ==>
      (k in r.0.storage <==> k in s.storage) && (k in s.storage ==> r.0.storage[k] == s.storage[k])
    ensures signOut.Err? ==> r.0.user == s.user && r.0.storage == s.storage && r.0.error == Some(LogoutFailed)
  {
    match signOut
    case Ok(_) =>
      (AuthState(None, false, None, Delete(Delete(s.storage, UserRoleKey), AuthTokenKey)), signOut)
    case Err(e) => (s.(error := Some(LogoutFailed), loading := false), Err(e))
  }

  /** The `onAuthStateChanged` callback. A failed token round rejects the callback before
      it clears `loading`, so the flag keeps its previous value. */
  function OnAuthStateChanged(s: AuthState, current: Option<User>, src: TokenSource): (r: AuthState)
    ensures r.user == current
    ensures current.None? ==> !r.loading && r.storage == s.storage
    ensures current.Some? ==> (r.loading <==> s.loading && GenerateToken(s, current, src).1.Err?)
    ensures current.Some? ==> r.storage == GenerateToken(s, current, src).0.storage
  {
    match current
    case None => s.(user := None, loading := false)
    case Some(u) =>
      var (t, res) := GenerateToken(s.(user := current), current, src);
      if res.Ok? then t.(loading := false) else t
  }

  // ---------------------------------------------------------------------------
  // Properties across operations

  /** A successful sign-in followed by a successful sign-out leaves neither a token nor the admin marker. */
  lemma LoginThenLogOut(s: AuthState, email: string, password: string, admin: AdminEnv,
                        provider: ProviderResult, src: TokenSource)
    requires Login(s, email, password, admin, provider, src).1.Ok?
    ensures var after := LogOut(Login(s, email, password, admin, provider, src).0, Ok(())).0;
      after.user.None? && GetToken(after.storage).None? && !IsAdmin(after.storage)
  {
  }

  /** No session operation writes the key the HTTP client reads its bearer token from,
      so signing in never adds an `Authorization` header to API requests. */
  lemma SignInDoesNotAuthorizeApi(s: AuthState, email: string, password: string, admin: AdminEnv,
                                  provider: ProviderResult, src: TokenSource,
                                  c: HttpClient.RequestConfig, now: int)
    ensures var st := Login(s, email, password, admin, provider, src).0.storage;
      HttpClient.InterceptRequest(c, st, now) == HttpClient.InterceptRequest(c, s.storage, now)
    ensures var st := LoginWithGoogle(s, admin, provider, src).0.storage;
      HttpClient.InterceptRequest(c, st, now) == HttpClient.InterceptRequest(c, s.storage, now)
  {
    var st := Login(s, email, password, admin, provider, src).0.storage;
    assert HttpClient.ApiToken(st) == HttpClient.ApiToken(s.storage) by {
      assert Get(st, ApiTokenKey) == Get(s.storage, ApiTokenKey);
    }
    var st2 := LoginWithGoogle(s, admin, provider, src).0.storage;
    assert HttpClient.ApiToken(st2) == HttpClient.ApiToken(s.storage) by {
      assert Get(st2, ApiTokenKey) == Get(s.storage, ApiTokenKey);
    }
  }

  /** Sign-up never grants or revokes the admin marker, and a sign-up followed by a
      successful sign-out leaves neither a token nor the marker. */
  lemma CreateUserThenLogOut(s: AuthState, provider: ProviderResult, src: TokenSource)
    ensures IsAdmin(CreateUser(s, provider, src).0.storage) <==> IsAdmin(s.storage)
    ensures var after := LogOut(CreateUser(s, provider, src).0, Ok(())).0;
      after.user.None? && GetToken(after.storage).None? && !IsAdmin(after.storage)
  {
    var r := CreateUser(s, provider, src);
    if provider.Signed? && r.1.Ok? {
      var signed := s.(user := Some(provider.user), error := None, loading := true);
      var t := GenerateToken(signed, Some(provider.user), src).0;
      assert r.0.storage == t.storage;
      assert SameExcept(s.storage, t.storage, AuthTokenKey);
      assert GetText(t.storage, UserRoleKey) == GetText(s.storage, UserRoleKey);
    }
  }

  /** The listener's call with no user, which follows a successful sign-out, changes nothing
      more: the sign-out already cleared the user, the flag and the stored keys. */
  lemma LogOutThenNoUserCallback(s: AuthState, src: TokenSource)
    ensures var out := LogOut(s, Ok(())).0;
      OnAuthStateChanged(out, None, src) == out
  {
  }

  /** For a signed-in user the listener stores what `refreshToken` for that user stores. */
  lemma ListenerStoresRefreshedToken(s: AuthState, u: User, src: TokenSource)
    ensures OnAuthStateChanged(s, Some(u), src).storage == RefreshToken(s, Some(u), src).0.storage
    ensures OnAuthStateChanged(s, Some(u), src).user == Some(u)
  {
    assert GenerateToken(s.(user := Some(u)), Some(u), src).0.storage == GenerateToken(s, Some(u), src).0.storage;
  }
}
