/** The `api/auth` endpoints: register, login and the caller's own claims. */
module AuthController {
  import opened Wrappers
  import opened Text
  import opened Domain
  import opened AppDbContext
  import opened Http
  import Claims
  import AuthService
  import UserRepository

  const RegistrationFailed := "An error occurred during registration"
  const LoginFailed := "An error occurred during login"

  /**
   * `Register`: a taken username is 400 with the service's message and nothing stored. A fresh
   * one is stored; the response is 200 with the service's response for the new user, or, with
   * no secret key configured, 400 with the key's message although the user is already stored.
   */
  method Register(ctx: DbContext, hasher: AuthService.PasswordHasher, salt: int, settings: AuthService.JwtSettings,
                  registerDto: RegisterDto, now: Timestamp)
    returns (r: ActionResult<AuthService.AuthResponseDto>)
    requires ctx.Valid() && OwnersArePhotographers(ctx.committed) && ctx.pending == []
    modifies ctx
    ensures ctx.Valid() && OwnersArePhotographers(ctx.committed) && ctx.pending == []
    ensures (exists k :: k in old(ctx.committed).users && old(ctx.committed).users[k].username == registerDto.username) ==>
      r == BadRequest(AuthService.UsernameTaken) && ctx.committed == old(ctx.committed)
    ensures (forall k :: k in old(ctx.committed).users ==> old(ctx.committed).users[k].username != registerDto.username) ==>
      var s := old(ctx.committed);
      var u := AuthService.NewUser(s.nextUserId, registerDto, hasher.hash(registerDto.password, salt), now);
      && ctx.committed == AuthService.Registered(s, u)
      && (AuthService.SecretConfigured(settings) ==>
            && r == Ok(AuthService.Issue(settings, u, now).value)
            && r.value.userId == s.nextUserId && r.value.username == registerDto.username && r.value.role == registerDto.role)
      && (!AuthService.SecretConfigured(settings) ==> r == BadRequest(AuthService.SecretKeyMissing))
  {
    var outcome := AuthService.Register(ctx, hasher, salt, settings, registerDto, now);
    r := match outcome
      case Success(response) => Ok(response)
      case Failure(InvalidOperation(message)) => BadRequest(message)
      case Failure(_) => ServerError(RegistrationFailed);
  }

  /**
   * `Login`: 401 with the service's message for bad credentials, 500 for anything else that
   * fails, otherwise 200 with the service's response, unchanged, for the stored user that the
   * username and password match.
   */
  function Login(s: Store, hasher: AuthService.PasswordHasher, settings: AuthService.JwtSettings, loginDto: LoginDto, now: Timestamp)
    : (r: ActionResult<AuthService.AuthResponseDto>)
    ensures r.Ok? || r.Unauthorized? || r.ServerError?
    ensures r.Unauthorized? ==> r.message == AuthService.InvalidCredentials
    ensures r.ServerError? ==> r.message == LoginFailed
    ensures r.Ok? ==> exists k :: (
      && k in s.users
      && s.users[k].username == loginDto.username
      && hasher.verify(loginDto.password, s.users[k].passwordHash)
      && Success(r.value) == AuthService.Issue(settings, s.users[k], now)
      && r.value.userId == s.users[k].id && r.value.role == s.users[k].role)
  {
    match AuthService.Login(s, hasher, settings, loginDto, now)
    case Success(response) => Ok(response)
    case Failure(UnauthorizedAccess(message)) => Unauthorized(message)
    case Failure(_) => ServerError(LoginFailed)
  }

  /** An unknown username and a wrong password get the same 401 response. */
  lemma LoginResponsesAlike(s1: Store, s2: Store, hasher: AuthService.PasswordHasher, settings: AuthService.JwtSettings,
                            loginDto: LoginDto, now: Timestamp, k: int)
    requires WellKeyed(s1) && ValidStore(s2)
    requires forall j :: j in s1.users ==> s1.users[j].username != loginDto.username
    requires k in s2.users && s2.users[k].username == loginDto.username
    requires !hasher.verify(loginDto.password, s2.users[k].passwordHash)
    ensures Login(s1, hasher, settings, loginDto, now) == Unauthorized(AuthService.InvalidCredentials)
    ensures Login(s2, hasher, settings, loginDto, now) == Unauthorized(AuthService.InvalidCredentials)
  {
    AuthService.LoginFailuresAlike(s1, s2, hasher, settings, loginDto, now, k);
  }

  /**
   * Without a secret key, correct credentials get 500 here, while the same missing key makes
   * `Register` answer 400: only `Register` catches `InvalidOperationException` itself.
   */
  lemma LoginWithoutSecretIsServerError(s: Store, hasher: AuthService.PasswordHasher, settings: AuthService.JwtSettings,
                                        loginDto: LoginDto, now: Timestamp, k: int)
    requires ValidStore(s) && !AuthService.SecretConfigured(settings)
    requires k in s.users && s.users[k].username == loginDto.username
    requires hasher.verify(loginDto.password, s.users[k].passwordHash)
    ensures Login(s, hasher, settings, loginDto, now) == ServerError(LoginFailed)
  {
    UserRepository.GetByUsernameUnique(s, k);
  }

  /** The right password for a stored user gets 200 with that user's id and role. */
  lemma LoginOk(s: Store, hasher: AuthService.PasswordHasher, settings: AuthService.JwtSettings, loginDto: LoginDto, now: Timestamp, k: int)
    requires ValidStore(s) && AuthService.SecretConfigured(settings)
    requires k in s.users && s.users[k].username == loginDto.username
    requires hasher.verify(loginDto.password, s.users[k].passwordHash)
    ensures Login(s, hasher, settings, loginDto, now).Ok?
    ensures Login(s, hasher, settings, loginDto, now).value.userId == k
    ensures Login(s, hasher, settings, loginDto, now).value.role == s.users[k].role
  {
    AuthService.LoginSucceeds(s, hasher, settings, loginDto, now, k);
  }

  /** The body of `me`: each claim's value, or null where the caller has none. */
  datatype CurrentUser = CurrentUser(
    userId: Option<string>,
    username: Option<string>,
    firstName: Option<string>,
    lastName: Option<string>,
    role: Option<string>)

  function GetCurrentUser(claims: seq<Claims.Claim>): ActionResult<CurrentUser>
  {
    Ok(CurrentUser(
      Claims.FindFirst(claims, Claims.NameIdentifier),
      Claims.FindFirst(claims, Claims.Name),
      Claims.FindFirst(claims, Claims.GivenName),
      Claims.FindFirst(claims, Claims.Surname),
      Claims.FindFirst(claims, Claims.Role)))
  }

  /** For the claims of an issued token, `me` echoes the user the token was issued to. */
  lemma CurrentUserOfIssuedToken(settings: AuthService.JwtSettings, user: User, now: Timestamp)
    requires AuthService.SecretConfigured(settings)
    ensures GetCurrentUser(AuthService.GenerateJwtToken(settings, user, now).value.claims)
      == Ok(CurrentUser(Some(IntToString(user.id)), Some(user.username), Some(user.firstName), Some(user.lastName), Some(RoleName(user.role))))
  {
  }
}
