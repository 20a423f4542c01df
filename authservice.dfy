/**
 * Registration and login over the users table. BCrypt and JWT signing are outside the model:
 * hashing and verification are parameters, and the token is its unsigned claims record.
 */
module AuthService {
  import opened Wrappers
  import opened Domain
  import opened Text
  import opened AppDbContext
  import UserRepository
  import Claims

  /** `BCrypt.HashPassword` (with the salt it draws) and `BCrypt.Verify`. */
  datatype PasswordHasher = PasswordHasher(hash: (string, int) -> string, verify: (string, string) -> bool)

  /** The one property of BCrypt the model relies on: a password verifies against its own hash. */
  ghost predicate Sound(h: PasswordHasher)
  {
    forall password, salt :: h.verify(password, h.hash(password, salt))
  }

  /** The `JwtSettings` configuration section. */
  datatype JwtSettings = JwtSettings(secretKey: Option<string>, issuer: Option<string>, audience: Option<string>)

  /** A `JwtSecurityToken` before signing and serialization. */
  datatype Token = Token(claims: seq<Claims.Claim>, issuer: Option<string>, audience: Option<string>, expires: Timestamp)

  datatype AuthResponseDto = AuthResponseDto(
    userId: int,
    username: string,
    firstName: string,
    lastName: string,
    role: UserRole,
    token: Token)

  /** `AddDays(7)`, in seconds. */
  const TokenLifetime: int := 7 * 24 * 60 * 60

  const SecretKeyMissing := "JWT SecretKey is not configured"
  const UsernameTaken := "Username already exists"
  const InvalidCredentials := "Invalid username or password"

  predicate SecretConfigured(settings: JwtSettings)
  {
    settings.secretKey.Some? && settings.secretKey.value != ""
  }

  /**
   * `GenerateJwtToken`: refused when the secret key is missing or empty; otherwise the five
   * claims of the user (id, username, first name, last name, role) expiring seven days on.
   */
  function GenerateJwtToken(settings: JwtSettings, user: User, now: Timestamp): (r: Result<Token, Exception>)
    ensures r.Failure? <==> !SecretConfigured(settings)
    ensures r.Failure? ==> r.error == InvalidOperation(SecretKeyMissing)
    ensures r.Success? ==>
      && r.value.expires == now + TokenLifetime
      && r.value.issuer == settings.issuer && r.value.audience == settings.audience
      && Claims.FindFirst(r.value.claims, Claims.NameIdentifier) == Some(IntToString(user.id))
      && Claims.FindFirst(r.value.claims, Claims.Name) == Some(user.username)
      && Claims.FindFirst(r.value.claims, Claims.GivenName) == Some(user.firstName)
      && Claims.FindFirst(r.value.claims, Claims.Surname) == Some(user.lastName)
      && Claims.FindFirst(r.value.claims, Claims.Role) == Some(RoleName(user.role))
  {
    if !SecretConfigured(settings) then Failure(InvalidOperation(SecretKeyMissing))
    else
      var claims := TokenClaims(user);
      TokenClaimsFound(user);
      Success(Token(claims, settings.issuer, settings.audience, now + TokenLifetime))
  }

  /** The claims `GenerateJwtToken` puts in the token, in its order. */
  function TokenClaims(user: User): seq<Claims.Claim>
  {
    [
      Claims.Claim(Claims.NameIdentifier, IntToString(user.id)),
      Claims.Claim(Claims.Name, user.username),
      Claims.Claim(Claims.GivenName, user.firstName),
      Claims.Claim(Claims.Surname, user.lastName),
      Claims.Claim(Claims.Role, RoleName(user.role))
    ]
  }

  /** In the token's claim order, each of the five types finds its own value. */
  lemma ClaimOrderFound(id: string, username: string, firstName: string, lastName: string, role: string)
    ensures var claims := [
        Claims.Claim(Claims.NameIdentifier, id), Claims.Claim(Claims.Name, username),
        Claims.Claim(Claims.GivenName, firstName), Claims.Claim(Claims.Surname, lastName),
        Claims.Claim(Claims.Role, role)];
      && Claims.FindFirst(claims, Claims.NameIdentifier) == Some(id)
      && Claims.FindFirst(claims, Claims.Name) == Some(username)
      && Claims.FindFirst(claims, Claims.GivenName) == Some(firstName)
      && Claims.FindFirst(claims, Claims.Surname) == Some(lastName)
      && Claims.FindFirst(claims, Claims.Role) == Some(role)
  {
    var claims := [
      Claims.Claim(Claims.NameIdentifier, id), Claims.Claim(Claims.Name, username),
      Claims.Claim(Claims.GivenName, firstName), Claims.Claim(Claims.Surname, lastName),
      Claims.Claim(Claims.Role, role)];
    assert claims[0].claimType == Claims.NameIdentifier;
    Claims.FindFirstAt(claims, Claims.NameIdentifier, 0);
    assert claims[1].claimType == Claims.Name && claims[0].claimType != Claims.Name;
    Claims.FindFirstAt(claims, Claims.Name, 1);
    assert forall j :: 0 <= j < 2 ==> claims[j].claimType != Claims.GivenName;
    Claims.FindFirstAt(claims, Claims.GivenName, 2);
    assert forall j :: 0 <= j < 3 ==> claims[j].claimType != Claims.Surname;
    Claims.FindFirstAt(claims, Claims.Surname, 3);
    assert forall j :: 0 <= j < 4 ==> claims[j].claimType != Claims.Role;
    Claims.FindFirstAt(claims, Claims.Role, 4);
  }

  /** Each of the five claim types finds the user's own value. */
  lemma TokenClaimsFound(user: User)
    ensures Claims.FindFirst(TokenClaims(user), Claims.NameIdentifier) == Some(IntToString(user.id))
    ensures Claims.FindFirst(TokenClaims(user), Claims.Name) == Some(user.username)
    ensures Claims.FindFirst(TokenClaims(user), Claims.GivenName) == Some(user.firstName)
    ensures Claims.FindFirst(TokenClaims(user), Claims.Surname) == Some(user.lastName)
    ensures Claims.FindFirst(TokenClaims(user), Claims.Role) == Some(RoleName(user.role))
  {
    ClaimOrderFound(IntToString(user.id), user.username, user.firstName, user.lastName, RoleName(user.role));
  }

  /** The identifier claim of an issued token parses back to the user's id. */
  lemma TokenIdentifiesUser(settings: JwtSettings, user: User, now: Timestamp)
    requires SecretConfigured(settings) && IsInt32(user.id)
    ensures ParseInt32(Claims.FindFirst(GenerateJwtToken(settings, user, now).value.claims, Claims.NameIdentifier).value) == Some(user.id)
  {
    IntToStringRoundTrip(user.id);
  }

  function Response(user: User, token: Token): AuthResponseDto
  {
    AuthResponseDto(user.id, user.username, user.firstName, user.lastName, user.role, token)
  }

  /** The user `RegisterAsync` stores: the request's names and role, and the hash of its password. */
  function NewUser(id: int, registerDto: RegisterDto, passwordHash: string, now: Timestamp): User
  {
    User(id, registerDto.username, passwordHash, registerDto.firstName, registerDto.lastName, registerDto.role, now, None)
  }

  /** The store after the new user's row is inserted under the next identity value. */
  function Registered(s: Store, u: User): Store
  {
    s.(users := s.users[u.id := u], nextUserId := u.id + 1)
  }

  /** The response for a stored user: its own fields and a fresh token, or the token's failure. */
  function Issue(settings: JwtSettings, user: User, now: Timestamp): (r: Result<AuthResponseDto, Exception>)
    ensures r.Success? <==> SecretConfigured(settings)
    ensures r.Success? ==>
      && r.value.userId == user.id && r.value.username == user.username
      && r.value.firstName == user.firstName && r.value.lastName == user.lastName && r.value.role == user.role
      && r.value.token == GenerateJwtToken(settings, user, now).value
    ensures r.Failure? ==> r.error == InvalidOperation(SecretKeyMissing)
  {
    match GenerateJwtToken(settings, user, now)
    case Failure(e) => Failure(e)
    case Success(token) => Success(Response(user, token))
  }

  /** A new user takes a fresh id, so every portfolio keeps its photographer. */
  lemma RegisteredKeepsOwners(s: Store, u: User)
    requires ValidStore(s) && OwnersArePhotographers(s) && u.id == s.nextUserId
    ensures OwnersArePhotographers(Registered(s, u))
  {
    var t := Registered(s, u);
    forall k | k in t.portfolios
      ensures IsPhotographer(t, t.portfolios[k].photographerId)
    {
      var owner := s.portfolios[k].photographerId;
      assert IsPhotographer(s, owner);
      assert owner < s.nextUserId;
    }
  }

  /**
   * `RegisterAsync`: a taken username is refused and nothing is added; otherwise the user is
   * stored with the hash of the password. A missing secret key fails only after the save, so
   * the user stays registered.
   */
  method Register(ctx: DbContext, hasher: PasswordHasher, salt: int, settings: JwtSettings, registerDto: RegisterDto, now: Timestamp)
    returns (r: Result<AuthResponseDto, Exception>)
    requires ctx.Valid() && OwnersArePhotographers(ctx.committed) && ctx.pending == []
    modifies ctx
    ensures ctx.Valid() && OwnersArePhotographers(ctx.committed) && ctx.pending == []
    ensures (exists k :: k in old(ctx.committed).users && old(ctx.committed).users[k].username == registerDto.username) ==>
      r == Failure(InvalidOperation(UsernameTaken)) && ctx.committed == old(ctx.committed)
    ensures (forall k :: k in old(ctx.committed).users ==> old(ctx.committed).users[k].username != registerDto.username) ==>
      var s := old(ctx.committed);
      var u := NewUser(s.nextUserId, registerDto, hasher.hash(registerDto.password, salt), now);
      && ctx.committed == Registered(s, u)
      && r == Issue(settings, u, now)
  {
    if UserRepository.UsernameExists(ctx.committed, registerDto.username) {
      return Failure(InvalidOperation(UsernameTaken));
    }
    var passwordHash := hasher.hash(registerDto.password, salt);
    var user := NewUser(0, registerDto, passwordHash, now);
    var added := UserRepository.Add(ctx, user);
    assert ctx.pending == [AddUser(user)];
    AddUserCommits(ctx.committed, user);
    ghost var s := ctx.committed;
    var saved := UserRepository.SaveChanges(ctx);
    match saved
    case Failure(e) =>
      r := Failure(DbUpdate(e));
    case Success(keys) =>
      var stored := added.(id := keys[0]);
      RegisteredKeepsOwners(s, stored);
      r := Issue(settings, stored, now);
  }

  /**
   * `LoginAsync`: the response is the stored user's; of the request only the username (to look
   * the user up) and the password (to verify) are used.
   */
  function Login(s: Store, hasher: PasswordHasher, settings: JwtSettings, loginDto: LoginDto, now: Timestamp)
    : (r: Result<AuthResponseDto, Exception>)
    ensures r.Failure? && r.error.UnauthorizedAccess? ==> r.error.message == InvalidCredentials
    ensures r.Success? ==> exists k :: (
      && k in s.users
      && s.users[k].username == loginDto.username
      && hasher.verify(loginDto.password, s.users[k].passwordHash)
      && r == Issue(settings, s.users[k], now))
  {
    match UserRepository.GetByUsername(s, loginDto.username)
    case None => Failure(UnauthorizedAccess(InvalidCredentials))
    case Some(user) =>
      if !hasher.verify(loginDto.password, user.passwordHash) then Failure(UnauthorizedAccess(InvalidCredentials))
      else Issue(settings, user, now)
  }

  /**
   * An unknown username and a wrong password are indistinguishable: both give the same
   * exception with the same message.
   */
  lemma LoginFailuresAlike(s1: Store, s2: Store, hasher: PasswordHasher, settings: JwtSettings, loginDto: LoginDto, now: Timestamp, k: int)
    requires WellKeyed(s1) && ValidStore(s2)
    requires forall j :: j in s1.users ==> s1.users[j].username != loginDto.username
    requires k in s2.users && s2.users[k].username == loginDto.username
    requires !hasher.verify(loginDto.password, s2.users[k].passwordHash)
    ensures Login(s1, hasher, settings, loginDto, now) == Failure(UnauthorizedAccess(InvalidCredentials))
    ensures Login(s1, hasher, settings, loginDto, now) == Login(s2, hasher, settings, loginDto, now)
  {
    UserRepository.GetByUsernameUnique(s2, k);
  }

  /** The right password for a stored user logs in as that user, with its stored role. */
  lemma LoginSucceeds(s: Store, hasher: PasswordHasher, settings: JwtSettings, loginDto: LoginDto, now: Timestamp, k: int)
    requires ValidStore(s) && SecretConfigured(settings)
    requires k in s.users && s.users[k].username == loginDto.username
    requires hasher.verify(loginDto.password, s.users[k].passwordHash)
    ensures Login(s, hasher, settings, loginDto, now).Success?
    ensures Login(s, hasher, settings, loginDto, now).value.userId == k
    ensures Login(s, hasher, settings, loginDto, now).value.role == s.users[k].role
  {
    UserRepository.GetByUsernameUnique(s, k);
  }

  /** Storing a user with a fresh username under the next id keeps the store valid. */
  lemma RegisteredStoreValid(s: Store, u: User)
    requires ValidStore(s) && u.id == s.nextUserId
    requires forall k :: k in s.users ==> s.users[k].username != u.username
    ensures ValidStore(Registered(s, u))
  {
    var u0 := u.(id := 0);
    AddUserCommits(s, u0);
    CommitValid(s, [AddUser(u0)]);
    assert u0.(id := u.id) == u;
  }

  /** Logging in with the credentials just registered gives the new user's id and chosen role. */
  lemma LoginAfterRegister(s: Store, hasher: PasswordHasher, salt: int, settings: JwtSettings, registerDto: RegisterDto, now: Timestamp, later: Timestamp)
    requires ValidStore(s) && Sound(hasher) && SecretConfigured(settings)
    requires forall k :: k in s.users ==> s.users[k].username != registerDto.username
    ensures var t := Registered(s, NewUser(s.nextUserId, registerDto, hasher.hash(registerDto.password, salt), now));
      var r := Login(t, hasher, settings, LoginDto(registerDto.username, registerDto.password), later);
      r.Success? && r.value.userId == s.nextUserId && r.value.role == registerDto.role
  {
    var u := NewUser(s.nextUserId, registerDto, hasher.hash(registerDto.password, salt), now);
    var t := Registered(s, u);
    RegisteredStoreValid(s, u);
    assert t.users[u.id] == u;
    assert hasher.verify(registerDto.password, u.passwordHash);
    LoginSucceeds(t, hasher, settings, LoginDto(registerDto.username, registerDto.password), later, u.id);
  }
}
