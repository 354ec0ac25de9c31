/** Registration, login, refresh-token rotation and logout over the user and
    refresh-token tables. The store keeps what the database holds apart from
    what the unit of work has added or changed since its last SaveChanges. */
module AuthService {
  import opened Common
  import opened Base64
  import opened Entities
  import PasswordUtils

  // ---------------------------------------------------------------------
  // Requests, responses and the world outside the service

  datatype RegisterDto = RegisterDto(username: Option<string>, email: Option<string>, password: Option<string>)
  datatype LoginDto = LoginDto(email: Option<string>, password: Option<string>)
  datatype AuthResponse = AuthResponse(accessToken: string, refreshToken: string, expiresAt: Time)

  /** Jwt:AccessTokenExpirationMinutes and Jwt:RefreshTokenExpirationDays. */
  datatype JwtSettings = JwtSettings(accessTokenExpirationMinutes: int, refreshTokenExpirationDays: int)

  /** What a request sees of the world: the clock, the settings, the JWT
      signer (user and expiry to the signed token), the key derivation, the
      MailAddress parser and the text of an escaping exception. */
  datatype Environment = Environment(
    now: Time,
    settings: JwtSettings,
    sign: (UserRow, Time) -> string,
    kdf: PasswordUtils.Kdf,
    isValidEmail: string -> bool,
    exceptionMessage: string)

  /** A user row as the flows store it. */
  datatype UserRow = UserRow(
    id: nat,
    username: string,
    email: string,
    passwordHash: string,
    createdAt: Time,
    updatedAt: Option<Time>,
    isActive: bool)

  /** The number of random bytes behind a refresh token value. */
  const RandomTokenSize := 32

  const ValidationFailed := "Validation failed"
  const UsernameError := "Username must be at least 3 characters long"
  const EmailError := "Valid email address is required"
  const PasswordError := "Password must be at least 6 characters long"
  const EmailRequired := "Email is required"
  const PasswordRequired := "Password is required"
  const DuplicateUser := "User with this email or username already exists"
  const InvalidCredentialsMessage := "Invalid email or password"
  const InvalidRefreshToken := "Invalid or expired refresh token"
  const UserNotFound := "User not found"

  /** The one failure a login gives for an unknown email and for a wrong
      password alike. */
  const InvalidCredentials: Response<AuthResponse> := Failure(InvalidCredentialsMessage)

  // ---------------------------------------------------------------------
  // Validation

  predicate UsernameAcceptable(username: Option<string>) {
    !IsNullOrWhiteSpace(username) && |username.value| >= 3
  }

  predicate EmailAcceptable(email: Option<string>, isValidEmail: string -> bool) {
    !IsNullOrWhiteSpace(email) && isValidEmail(email.value)
  }

  predicate PasswordAcceptable(password: Option<string>) {
    !IsNullOrWhiteSpace(password) && |password.value| >= 6
  }

  /** The position of each registration error in the itemized list. */
  function RegistrationRank(message: string): int {
    if message == UsernameError then 0 else if message == EmailError then 1 else 2
  }

  function ValidateRegistration(dto: RegisterDto, isValidEmail: string -> bool): (errors: seq<string>)
    ensures errors == [] <==>
      UsernameAcceptable(dto.username) && EmailAcceptable(dto.email, isValidEmail) && PasswordAcceptable(dto.password)
    ensures UsernameError in errors <==> !UsernameAcceptable(dto.username)
    ensures EmailError in errors <==> !EmailAcceptable(dto.email, isValidEmail)
    ensures PasswordError in errors <==> !PasswordAcceptable(dto.password)
    ensures forall m | m in errors :: m == UsernameError || m == EmailError || m == PasswordError
    ensures forall i, j | 0 <= i < j < |errors| :: RegistrationRank(errors[i]) < RegistrationRank(errors[j])
  {
    (if IsNullOrWhiteSpace(dto.username) || |dto.username.value| < 3 then [UsernameError] else [])
    + (if IsNullOrWhiteSpace(dto.email) || !isValidEmail(dto.email.value) then [EmailError] else [])
    + (if IsNullOrWhiteSpace(dto.password) || |dto.password.value| < 6 then [PasswordError] else [])
  }

  function ValidateLogin(dto: LoginDto): (errors: seq<string>)
    ensures errors == [] <==> !IsNullOrWhiteSpace(dto.email) && !IsNullOrWhiteSpace(dto.password)
    ensures EmailRequired in errors <==> IsNullOrWhiteSpace(dto.email)
    ensures PasswordRequired in errors <==> IsNullOrWhiteSpace(dto.password)
    ensures |errors| <= 2 && (|errors| == 2 ==> errors == [EmailRequired, PasswordRequired])
  {
    (if IsNullOrWhiteSpace(dto.email) then [EmailRequired] else [])
    + (if IsNullOrWhiteSpace(dto.password) then [PasswordRequired] else [])
  }

  // ---------------------------------------------------------------------
  // Queries (FirstOrDefaultAsync and GetByIdAsync)

  datatype UserQuery = ByEmail(email: string) | ByEmailOrUsername(email: string, username: string) | ById(id: nat)

  predicate UserMatches(q: UserQuery, u: UserRow) {
    match q
    case ByEmail(e) => u.email == e
    case ByEmailOrUsername(e, n) => u.email == e || u.username == n
    case ById(id) => u.id == id
  }

  /** The index of the first matching user, in table order. */
  function FindUser(users: seq<UserRow>, q: UserQuery): (r: Option<nat>)
    ensures r.Some? ==> r.value < |users| && UserMatches(q, users[r.value])
    ensures r.Some? ==> forall j | 0 <= j < r.value :: !UserMatches(q, users[j])
    ensures r.None? ==> forall j | 0 <= j < |users| :: !UserMatches(q, users[j])
  {
    if users == [] then None
    else if UserMatches(q, users[0]) then Some(0)
    else match FindUser(users[1..], q)
      case None => None
      case Some(k) => Some(k + 1)
  }

  datatype TokenQuery = ByValue(value: string) | UsableByValue(value: string, now: Time)

  predicate TokenMatches(q: TokenQuery, t: RefreshToken) {
    match q
    case ByValue(v) => t.token == v
    case UsableByValue(v, now) => t.token == v && IsUsable(t, now)
  }

  /** The index of the first matching token, in table order. */
  function FindToken(tokens: seq<RefreshToken>, q: TokenQuery): (r: Option<nat>)
    ensures r.Some? ==> r.value < |tokens| && TokenMatches(q, tokens[r.value])
    ensures r.Some? ==> forall j | 0 <= j < r.value :: !TokenMatches(q, tokens[j])
    ensures r.None? ==> forall j | 0 <= j < |tokens| :: !TokenMatches(q, tokens[j])
  {
    if tokens == [] then None
    else if TokenMatches(q, tokens[0]) then Some(0)
    else match FindToken(tokens[1..], q)
      case None => None
      case Some(k) => Some(k + 1)
  }

  // ---------------------------------------------------------------------
  // The tables and their invariants

  datatype Tables = Tables(users: seq<UserRow>, tokens: seq<RefreshToken>)

  /** Unique ids below the next identity value, and the unique Email and
      Username indexes. */
  ghost predicate UsersValid(users: seq<UserRow>, nextUserId: nat) {
    && (forall i | 0 <= i < |users| :: users[i].id < nextUserId)
    && (forall i, j | 0 <= i < j < |users| ::
          users[i].id != users[j].id && users[i].email != users[j].email && users[i].username != users[j].username)
  }

  ghost predicate TokensValid(tokens: seq<RefreshToken>, nextTokenId: nat) {
    && (forall i | 0 <= i < |tokens| :: tokens[i].id < nextTokenId)
    && (forall i, j | 0 <= i < j < |tokens| :: tokens[i].id != tokens[j].id)
  }

  ghost predicate TablesValid(t: Tables, nextUserId: nat, nextTokenId: nat) {
    UsersValid(t.users, nextUserId) && TokensValid(t.tokens, nextTokenId)
  }

  /** Every token belongs to a user that exists. */
  predicate TokensOwned(t: Tables) {
    forall i | 0 <= i < |t.tokens| :: FindUser(t.users, ById(t.tokens[i].userId)).Some?
  }

  /** `token.IsRevoked = true` on the k-th token. */
  function RevokeAt(tokens: seq<RefreshToken>, k: nat): (r: seq<RefreshToken>)
    requires k < |tokens|
    ensures |r| == |tokens| && r[k].isRevoked
    ensures r[k] == tokens[k].(isRevoked := true)
    ensures forall j | 0 <= j < |tokens| && j != k :: r[j] == tokens[j]
  {
    tokens[k := tokens[k].(isRevoked := true)]
  }

  /** The token table after Logout: the first token with that value is
      revoked, whatever its state, and nothing else changes. */
  function LogoutTokens(tokens: seq<RefreshToken>, value: string): (r: seq<RefreshToken>)
    ensures |r| == |tokens|
    ensures forall j | 0 <= j < |tokens| :: r[j].token == tokens[j].token && r[j].id == tokens[j].id
    ensures FindToken(tokens, ByValue(value)).None? ==> r == tokens
    ensures FindToken(tokens, ByValue(value)).Some? ==>
      var k := FindToken(tokens, ByValue(value)).value;
      r[k].isRevoked && forall j | 0 <= j < |tokens| && j != k :: r[j] == tokens[j]
  {
    match FindToken(tokens, ByValue(value))
    case None => tokens
    case Some(k) => RevokeAt(tokens, k)
  }

  /** The RefreshToken GenerateRefreshTokenAsync builds: the user's, created
      now, and usable exactly until the configured number of days has passed. */
  function NewToken(id: nat, value: string, userId: nat, env: Environment): (r: RefreshToken)
    ensures r.id == id && r.token == value && r.userId == userId && r.createdAt == env.now
    ensures forall later :: IsUsable(r, later) <==> later < AddDays(env.now, env.settings.refreshTokenExpirationDays)
  {
    RefreshToken(id, value, AddDays(env.now, env.settings.refreshTokenExpirationDays), false, env.now, userId)
  }

  /** GenerateAccessToken: the JWT is signed with the expiry the response
      reports, the configured number of minutes from now. */
  function AccessToken(user: UserRow, env: Environment): (r: AuthResponse)
    ensures r.expiresAt == AddMinutes(env.now, env.settings.accessTokenExpirationMinutes)
    ensures r.accessToken == env.sign(user, r.expiresAt)
    ensures env.settings.accessTokenExpirationMinutes >= 0 ==> r.expiresAt >= env.now
  {
    var expiresAt := AddMinutes(env.now, env.settings.accessTokenExpirationMinutes);
    AuthResponse(env.sign(user, expiresAt), "", expiresAt)
  }

  /** The response of a flow that issued tokens for `user`. */
  function Issued(message: string, user: UserRow, refreshToken: string, env: Environment): Response<AuthResponse> {
    Success(message, AccessToken(user, env).(refreshToken := refreshToken))
  }

  // ---------------------------------------------------------------------
  // The unit of work over the two tables

  class AuthStore {
    /** What the database holds. */
    var saved: Tables
    /** What the unit of work tracks: the saved rows with the changes made
        since the last SaveChanges. */
    var working: Tables
    var nextUserId: nat
    var nextTokenId: nat

    ghost predicate Valid()
      reads this
    {
      TablesValid(saved, nextUserId, nextTokenId) && TablesValid(working, nextUserId, nextTokenId)
    }

    /** No change is pending: a unit of work as a request receives it. */
    predicate Clean()
      reads this
    {
      working == saved
    }

    constructor ()
      ensures Valid() && Clean() && saved == Tables([], [])
    {
      saved := Tables([], []);
      working := Tables([], []);
      nextUserId := 1;
      nextTokenId := 1;
    }

    /** Users.AddAsync: the row is tracked, not yet saved. */
    method AddUser(username: string, email: string, passwordHash: string, now: Time) returns (user: UserRow)
      requires Valid()
      requires FindUser(working.users, ByEmailOrUsername(email, username)).None?
      modifies this
      ensures Valid()
      ensures user == UserRow(old(nextUserId), username, email, passwordHash, now, None, false)
      ensures working == old(working).(users := old(working.users) + [user])
      ensures saved == old(saved) && nextUserId == old(nextUserId) + 1 && nextTokenId == old(nextTokenId)
    {
      user := UserRow(nextUserId, username, email, passwordHash, now, None, false);
      working := working.(users := working.users + [user]);
      nextUserId := nextUserId + 1;
    }

    /** RefreshTokens.AddAsync: the row is tracked, not yet saved. */
    method AddToken(value: string, userId: nat, env: Environment) returns (token: RefreshToken)
      requires Valid()
      modifies this
      ensures Valid()
      ensures token == NewToken(old(nextTokenId), value, userId, env)
      ensures working == old(working).(tokens := old(working.tokens) + [token])
      ensures saved == old(saved) && nextUserId == old(nextUserId) && nextTokenId == old(nextTokenId) + 1
    {
      token := NewToken(nextTokenId, value, userId, env);
      working := working.(tokens := working.tokens + [token]);
      nextTokenId := nextTokenId + 1;
    }

    /** `token.IsRevoked = true` followed by RefreshTokens.Update. */
    method Revoke(k: nat)
      requires Valid() && k < |working.tokens|
      modifies this
      ensures Valid()
      ensures working == old(working).(tokens := RevokeAt(old(working.tokens), k))
      ensures saved == old(saved) && nextUserId == old(nextUserId) && nextTokenId == old(nextTokenId)
    {
      working := working.(tokens := RevokeAt(working.tokens, k));
    }

    /** SaveChangesAsync: every pending change reaches the database at once. */
    method SaveChanges()
      requires Valid()
      modifies this
      ensures Valid() && Clean()
      ensures saved == old(working) && nextUserId == old(nextUserId) && nextTokenId == old(nextTokenId)
    {
      saved := working;
    }

    /** The end of a request: the scoped context is disposed and whatever it
        had not saved is gone. */
    method EndRequest()
      requires Valid()
      modifies this
      ensures Valid() && Clean()
      ensures saved == old(saved) && nextUserId == old(nextUserId) && nextTokenId == old(nextTokenId)
    {
      working := saved;
    }
  }

  // ---------------------------------------------------------------------
  // The flows

  /** GenerateRefreshTokenAsync: 32 random bytes in base64, valid for the
      configured number of days, added to the unit of work. */
  method GenerateRefreshToken(store: AuthStore, userId: nat, randomBytes: seq<Byte>, env: Environment)
    returns (value: string)
    requires store.Valid() && |randomBytes| == RandomTokenSize
    modifies store
    ensures store.Valid()
    ensures value == Encode(randomBytes)
    ensures store.working == old(store.working).(tokens :=
      old(store.working.tokens) + [NewToken(old(store.nextTokenId), value, userId, env)])
    ensures store.saved == old(store.saved) && store.nextUserId == old(store.nextUserId)
    ensures store.nextTokenId == old(store.nextTokenId) + 1
  {
    value := Encode(randomBytes);
    var token := store.AddToken(value, userId, env);
  }

  /** RegisterAsync; `salt` and `randomBytes` are what the random generator
      gives the password hash and the refresh token. */
  method Register(store: AuthStore, dto: RegisterDto, env: Environment, salt: seq<Byte>, randomBytes: seq<Byte>)
    returns (r: Response<AuthResponse>)
    requires store.Valid() && store.Clean()
    requires |salt| == PasswordUtils.SaltSize && |randomBytes| == RandomTokenSize
    modifies store
    ensures store.Valid()
    ensures ValidateRegistration(dto, env.isValidEmail) != [] ==>
      && r == Response(false, ValidationFailed, ValidateRegistration(dto, env.isValidEmail), None)
      && unchanged(store)
    ensures ValidateRegistration(dto, env.isValidEmail) == [] ==>
      var duplicate := FindUser(old(store.saved.users), ByEmailOrUsername(dto.email.value, dto.username.value));
      && (duplicate.Some? ==> r == Failure(DuplicateUser) && unchanged(store))
      && (duplicate.None? ==>
            var user := UserRow(old(store.nextUserId), dto.username.value, dto.email.value,
                                PasswordUtils.StoredHash(dto.password.value, salt, env.kdf), env.now, None, false);
            var token := NewToken(old(store.nextTokenId), Encode(randomBytes), user.id, env);
            && store.saved == Tables(old(store.saved.users) + [user], old(store.saved.tokens))
            && store.working == Tables(store.saved.users, store.saved.tokens + [token])
            && r == Issued("User registered successfully", user, token.token, env))
    ensures TokensOwned(old(store.saved)) ==> TokensOwned(store.saved) && TokensOwned(store.working)
  {
    var errors := ValidateRegistration(dto, env.isValidEmail);
    if errors != [] {
      return Response(false, ValidationFailed, errors, None);
    }
    var username, email, password := dto.username.value, dto.email.value, dto.password.value;
    if FindUser(store.saved.users, ByEmailOrUsername(email, username)).Some? {
      return Failure(DuplicateUser);
    }
    r := CreateUser(store, username, email, password, env, salt, randomBytes);
  }

  /** The tail of RegisterAsync once the request is known to be new: the user
      row is saved, then its refresh token is added to the unit of work. */
  method CreateUser(store: AuthStore, username: string, email: string, password: string, env: Environment,
                    salt: seq<Byte>, randomBytes: seq<Byte>)
    returns (r: Response<AuthResponse>)
    requires store.Valid() && store.Clean()
    requires FindUser(store.saved.users, ByEmailOrUsername(email, username)).None?
    requires |salt| == PasswordUtils.SaltSize && |randomBytes| == RandomTokenSize
    modifies store
    ensures store.Valid()
    ensures var user := UserRow(old(store.nextUserId), username, email,
                                PasswordUtils.StoredHash(password, salt, env.kdf), env.now, None, false);
      var token := NewToken(old(store.nextTokenId), Encode(randomBytes), user.id, env);
      && store.saved == Tables(old(store.saved.users) + [user], old(store.saved.tokens))
      && store.working == Tables(store.saved.users, store.saved.tokens + [token])
      && r == Issued("User registered successfully", user, token.token, env)
    ensures TokensOwned(old(store.saved)) ==> TokensOwned(store.saved) && TokensOwned(store.working)
  {
    var passwordHash := PasswordUtils.HashPassword(password, salt, env.kdf);
    var user := store.AddUser(username, email, passwordHash, env.now);
    store.SaveChanges();
    var refreshToken := GenerateRefreshToken(store, user.id, randomBytes, env);
    if TokensOwned(old(store.saved)) {
      OwnedAfterNewUser(old(store.saved), user);
      assert UserMatches(ById(user.id), store.saved.users[|store.saved.users| - 1]);
      OwnedAfterNewToken(store.saved, NewToken(old(store.nextTokenId), refreshToken, user.id, env));
    }
    r := Issued("User registered successfully", user, refreshToken, env);
  }

  /** LoginAsync. A stored hash that VerifyPassword cannot read makes it
      throw, and the catch-all turns that into the generic login fault. */
  method Login(store: AuthStore, dto: LoginDto, env: Environment, randomBytes: seq<Byte>)
    returns (r: Response<AuthResponse>)
    requires store.Valid() && store.Clean()
    requires |randomBytes| == RandomTokenSize
    modifies store
    ensures store.Valid()
    ensures store.saved == old(store.saved)
    ensures ValidateLogin(dto) != [] ==>
      r == Response(false, ValidationFailed, ValidateLogin(dto), None) && unchanged(store)
    ensures ValidateLogin(dto) == [] ==>
      var k := FindUser(old(store.saved.users), ByEmail(dto.email.value));
      && (k.None? ==> r == InvalidCredentials && unchanged(store))
      && (k.Some? ==>
            var user := old(store.saved.users)[k.value];
            var verified := PasswordUtils.Verification(dto.password.value, user.passwordHash, env.kdf);
            && (verified == Some(false) ==> r == InvalidCredentials && unchanged(store))
            && (verified.None? ==>
                  r == Response(false, "An error occurred during login", [env.exceptionMessage], None) && unchanged(store))
            && (verified == Some(true) ==>
                  var token := NewToken(old(store.nextTokenId), Encode(randomBytes), user.id, env);
                  && store.working == Tables(store.saved.users, store.saved.tokens + [token])
                  && r == Issued("Login successful", user, token.token, env)))
    ensures TokensOwned(old(store.saved)) ==> TokensOwned(store.working)
  {
    var errors := ValidateLogin(dto);
    if errors != [] {
      return Response(false, ValidationFailed, errors, None);
    }
    var k := FindUser(store.saved.users, ByEmail(dto.email.value));
    if k.None? {
      return InvalidCredentials;
    }
    var user := store.saved.users[k.value];
    var verified := PasswordUtils.VerifyPassword(dto.password.value, user.passwordHash, env.kdf);
    if verified.None? {
      return Response(false, "An error occurred during login", [env.exceptionMessage], None);
    }
    if !verified.value {
      return InvalidCredentials;
    }
    var refreshToken := GenerateRefreshToken(store, user.id, randomBytes, env);
    if TokensOwned(old(store.saved)) {
      OwnedAfterNewToken(store.saved, NewToken(old(store.nextTokenId), refreshToken, user.id, env));
    }
    r := Issued("Login successful", user, refreshToken, env);
  }

  /** RefreshTokenAsync: rotate a usable token. The revocation and the new
      token are committed by the same SaveChanges. */
  method Refresh(store: AuthStore, value: string, env: Environment, randomBytes: seq<Byte>)
    returns (r: Response<AuthResponse>)
    requires store.Valid() && store.Clean()
    requires |randomBytes| == RandomTokenSize
    modifies store
    ensures store.Valid() && store.Clean()
    ensures var k := FindToken(old(store.saved.tokens), UsableByValue(value, env.now));
      && (k.None? ==> r == Failure(InvalidRefreshToken) && unchanged(store))
      && (k.Some? ==>
            var owner := FindUser(old(store.saved.users), ById(old(store.saved.tokens)[k.value].userId));
            && (owner.None? ==> r == Failure(UserNotFound) && unchanged(store))
            && (owner.Some? ==>
                  var user := old(store.saved.users)[owner.value];
                  var token := NewToken(old(store.nextTokenId), Encode(randomBytes), user.id, env);
                  && store.saved == Tables(old(store.saved.users), RevokeAt(old(store.saved.tokens), k.value) + [token])
                  && r == Issued("Token refreshed successfully", user, token.token, env)))
    ensures TokensOwned(old(store.saved)) ==> TokensOwned(store.saved)
  {
    var k := FindToken(store.saved.tokens, UsableByValue(value, env.now));
    if k.None? {
      return Failure(InvalidRefreshToken);
    }
    var owner := FindUser(store.saved.users, ById(store.saved.tokens[k.value].userId));
    if owner.None? {
      return Failure(UserNotFound);
    }
    var user := store.saved.users[owner.value];
    store.Revoke(k.value);
    var refreshToken := GenerateRefreshToken(store, user.id, randomBytes, env);
    if TokensOwned(old(store.saved)) {
      OwnedAfterRevoke(old(store.saved), k.value);
      OwnedAfterNewToken(old(store.saved).(tokens := RevokeAt(old(store.saved.tokens), k.value)),
                         NewToken(old(store.nextTokenId), refreshToken, user.id, env));
    }
    store.SaveChanges();
    r := Issued("Token refreshed successfully", user, refreshToken, env);
  }

  /** LogoutAsync: always a success; the first token with the value, if any,
      is revoked and saved. */
  method Logout(store: AuthStore, value: string) returns (r: Response<bool>)
    requires store.Valid() && store.Clean()
    modifies store
    ensures store.Valid() && store.Clean()
    ensures r == Success("Logout successful", true)
    ensures store.saved == Tables(old(store.saved.users), LogoutTokens(old(store.saved.tokens), value))
    ensures store.nextUserId == old(store.nextUserId) && store.nextTokenId == old(store.nextTokenId)
  {
    var k := FindToken(store.saved.tokens, ByValue(value));
    if k.Some? {
      store.Revoke(k.value);
      store.SaveChanges();
    }
    r := Success("Logout successful", true);
  }

  // ---------------------------------------------------------------------
  // Ownership is kept by every change the flows make

  lemma OwnedAfterNewUser(t: Tables, user: UserRow)
    requires TokensOwned(t)
    ensures TokensOwned(t.(users := t.users + [user]))
  {
    forall i | 0 <= i < |t.tokens|
      ensures FindUser(t.users + [user], ById(t.tokens[i].userId)).Some?
    {
      var k := FindUser(t.users, ById(t.tokens[i].userId)).value;
      assert (t.users + [user])[k] == t.users[k];
    }
  }

  lemma OwnedAfterNewToken(t: Tables, token: RefreshToken)
    requires TokensOwned(t) && FindUser(t.users, ById(token.userId)).Some?
    ensures TokensOwned(t.(tokens := t.tokens + [token]))
  {
    var u := t.tokens + [token];
    forall i | 0 <= i < |u|
      ensures FindUser(t.users, ById(u[i].userId)).Some?
    {
      if i < |t.tokens| {
        assert u[i] == t.tokens[i];
      }
    }
  }

  lemma OwnedAfterRevoke(t: Tables, k: nat)
    requires TokensOwned(t) && k < |t.tokens|
    ensures TokensOwned(t.(tokens := RevokeAt(t.tokens, k)))
  {
    var u := RevokeAt(t.tokens, k);
    forall i | 0 <= i < |u|
      ensures FindUser(t.users, ById(u[i].userId)).Some?
    {
      assert u[i].userId == t.tokens[i].userId;
    }
  }
  // ---------------------------------------------------------------------
  // Logout and rotation

  /** Looking a token up by value sees nothing but the values. */
  lemma {:induction false} FindByValueSeesOnlyValues(a: seq<RefreshToken>, b: seq<RefreshToken>, value: string)
    requires |a| == |b| && forall j | 0 <= j < |a| :: a[j].token == b[j].token
    ensures FindToken(a, ByValue(value)) == FindToken(b, ByValue(value))
  {
    if a != [] {
      assert forall j | 0 <= j < |a| - 1 :: a[1..][j].token == b[1..][j].token by {
        forall j | 0 <= j < |a| - 1 ensures a[1..][j].token == b[1..][j].token {
          assert a[1..][j] == a[j + 1] && b[1..][j] == b[j + 1];
        }
      }
      FindByValueSeesOnlyValues(a[1..], b[1..], value);
    }
  }

  /** Logging out twice with the same value is logging out once. */
  lemma LogoutIdempotent(tokens: seq<RefreshToken>, value: string)
    ensures LogoutTokens(LogoutTokens(tokens, value), value) == LogoutTokens(tokens, value)
  {
    var once := LogoutTokens(tokens, value);
    FindByValueSeesOnlyValues(once, tokens, value);
    match FindToken(tokens, ByValue(value))
    case None =>
    case Some(k) =>
      assert once[k] == once[k].(isRevoked := true);
  }

  /** After a rotation the presented value is refused, at any later time,
      unless another live token carries the same value. */
  lemma RotatedValueRefused(tokens: seq<RefreshToken>, k: nat, value: string, later: Time, issued: RefreshToken)
    requires k < |tokens| && tokens[k].token == value
    requires forall j | 0 <= j < |tokens| && j != k :: !TokenMatches(UsableByValue(value, later), tokens[j])
    requires issued.token != value
    ensures FindToken(RevokeAt(tokens, k) + [issued], UsableByValue(value, later)).None?
  {
    var rotated := RevokeAt(tokens, k) + [issued];
    forall j | 0 <= j < |rotated|
      ensures !TokenMatches(UsableByValue(value, later), rotated[j])
    {
      if j < |tokens| {
        assert rotated[j] == RevokeAt(tokens, k)[j];
      }
    }
  }

  /** A user Register stores is the one Login finds by that email, and the
      password it was registered with verifies against the stored hash. */
  lemma RegisteredUserCanLogIn(users: seq<UserRow>, user: UserRow, password: string, salt: seq<Byte>, kdf: PasswordUtils.Kdf)
    requires |salt| == PasswordUtils.SaltSize
    requires FindUser(users, ByEmailOrUsername(user.email, user.username)).None?
    requires user.passwordHash == PasswordUtils.StoredHash(password, salt, kdf)
    ensures FindUser(users + [user], ByEmail(user.email)) == Some(|users|)
    ensures PasswordUtils.Verification(password, user.passwordHash, kdf) == Some(true)
  {
    var all := users + [user];
    var r := FindUser(all, ByEmail(user.email));
    assert UserMatches(ByEmail(user.email), all[|users|]);
    if r.Some? && r.value < |users| {
      assert all[r.value] == users[r.value];
      assert UserMatches(ByEmailOrUsername(user.email, user.username), users[r.value]);
    }
    PasswordUtils.HashThenVerify(password, salt, kdf);
  }

  // ---------------------------------------------------------------------
  // Deleting a user (the cascading foreign key of the token table)

  /** The rows a delete leaves: every row `gone` does not select, in order. */
  function Without<T(==)>(rows: seq<T>, gone: T -> bool): (r: seq<T>)
    ensures forall i | 0 <= i < |r| :: !gone(r[i]) && r[i] in rows
    ensures forall i | 0 <= i < |rows| && !gone(rows[i]) :: rows[i] in r
  {
    if rows == [] then []
    else (if gone(rows[0]) then [] else [rows[0]]) + Without(rows[1..], gone)
  }

  /** The tables after the user row `id` is deleted: its tokens go with it. */
  function DeleteUser(t: Tables, id: nat): (r: Tables)
    ensures FindUser(r.users, ById(id)).None?
    ensures forall i | 0 <= i < |r.tokens| :: r.tokens[i].userId != id
  {
    Tables(Without(t.users, (u: UserRow) => u.id == id), Without(t.tokens, (k: RefreshToken) => k.userId == id))
  }

  /** The cascade leaves no token without its user. */
  lemma DeleteUserKeepsOwnership(t: Tables, id: nat)
    requires TokensOwned(t)
    ensures TokensOwned(DeleteUser(t, id))
  {
    var r := DeleteUser(t, id);
    forall i | 0 <= i < |r.tokens|
      ensures FindUser(r.users, ById(r.tokens[i].userId)).Some?
    {
      var token := r.tokens[i];
      var m :| 0 <= m < |t.tokens| && t.tokens[m] == token;
      var p := FindUser(t.users, ById(token.userId)).value;
      assert t.users[p].id == token.userId != id;
      var q :| 0 <= q < |r.users| && r.users[q] == t.users[p];
      assert UserMatches(ById(token.userId), r.users[q]);
    }
  }

  // ---------------------------------------------------------------------
  // The token Register and Login hand out is never saved

  /** As written: Login adds its refresh token to the unit of work and the
      request ends without saving it, so the next request cannot refresh with
      it (the value is assumed new to the token table). */
  method LoginThenRefresh(store: AuthStore, dto: LoginDto, env: Environment, loginBytes: seq<Byte>,
                          later: Time, refreshBytes: seq<Byte>)
    returns (login: Response<AuthResponse>, refresh: Response<AuthResponse>)
    requires store.Valid() && store.Clean()
    requires |loginBytes| == RandomTokenSize && |refreshBytes| == RandomTokenSize
    requires FindToken(store.saved.tokens, ByValue(Encode(loginBytes))).None?
    modifies store
    ensures login.success ==> login.data.Some? && login.data.value.refreshToken == Encode(loginBytes)
    ensures refresh == Failure(InvalidRefreshToken)
    ensures store.saved == old(store.saved)
  {
    login := Login(store, dto, env, loginBytes);
    store.EndRequest();
    refresh := Refresh(store, Encode(loginBytes), env.(now := later), refreshBytes);
  }

  /** As written for Register: the new user is saved, its token is not. */
  method RegisterThenEndRequest(store: AuthStore, dto: RegisterDto, env: Environment, salt: seq<Byte>,
                                randomBytes: seq<Byte>)
    returns (r: Response<AuthResponse>)
    requires store.Valid() && store.Clean()
    requires |salt| == PasswordUtils.SaltSize && |randomBytes| == RandomTokenSize
    modifies store
    ensures store.Valid() && store.Clean()
    ensures store.saved.tokens == old(store.saved.tokens)
    ensures r.success ==> |store.saved.users| == |old(store.saved.users)| + 1
  {
    r := Register(store, dto, env, salt, randomBytes);
    store.EndRequest();
  }

  /** Corrected Login: the issued token is committed with the request. */
  method LoginCommitted(store: AuthStore, dto: LoginDto, env: Environment, randomBytes: seq<Byte>)
    returns (r: Response<AuthResponse>)
    requires store.Valid() && store.Clean()
    requires |randomBytes| == RandomTokenSize
    modifies store
    ensures store.Valid() && store.Clean()
    ensures !r.success ==> unchanged(store)
    ensures r.success ==>
      && ValidateLogin(dto) == []
      && var k := FindUser(old(store.saved.users), ByEmail(dto.email.value));
      && k.Some?
      && PasswordUtils.Verification(dto.password.value, old(store.saved.users)[k.value].passwordHash, env.kdf) == Some(true)
      && store.saved == Tables(old(store.saved.users),
           old(store.saved.tokens) + [NewToken(old(store.nextTokenId), Encode(randomBytes), old(store.saved.users)[k.value].id, env)])
      && r == Issued("Login successful", old(store.saved.users)[k.value], Encode(randomBytes), env)
    ensures TokensOwned(old(store.saved)) ==> TokensOwned(store.saved)
  {
    r := Login(store, dto, env, randomBytes);
    if r.success {
      store.SaveChanges();
    }
  }

  /** Corrected Register: the user and its first token are both committed. */
  method RegisterCommitted(store: AuthStore, dto: RegisterDto, env: Environment, salt: seq<Byte>,
                           randomBytes: seq<Byte>)
    returns (r: Response<AuthResponse>)
    requires store.Valid() && store.Clean()
    requires |salt| == PasswordUtils.SaltSize && |randomBytes| == RandomTokenSize
    modifies store
    ensures store.Valid() && store.Clean()
    ensures !r.success ==> unchanged(store)
    ensures r.success ==>
      && ValidateRegistration(dto, env.isValidEmail) == []
      && FindUser(old(store.saved.users), ByEmailOrUsername(dto.email.value, dto.username.value)).None?
      && var user := UserRow(old(store.nextUserId), dto.username.value, dto.email.value,
                             PasswordUtils.StoredHash(dto.password.value, salt, env.kdf), env.now, None, false);
      && store.saved.users == old(store.saved.users) + [user]
      && store.saved.tokens == old(store.saved.tokens) + [NewToken(old(store.nextTokenId), Encode(randomBytes), user.id, env)]
      && r == Issued("User registered successfully", user, Encode(randomBytes), env)
    ensures TokensOwned(old(store.saved)) ==> TokensOwned(store.saved)
  {
    r := Register(store, dto, env, salt, randomBytes);
    if r.success {
      store.SaveChanges();
    }
  }

  /** With the token committed, the next request can refresh with it for as
      long as it has not expired. */
  method LoginCommittedThenRefresh(store: AuthStore, dto: LoginDto, env: Environment, loginBytes: seq<Byte>,
                                   later: Time, refreshBytes: seq<Byte>)
    returns (login: Response<AuthResponse>, refresh: Response<AuthResponse>)
    requires store.Valid() && store.Clean() && TokensOwned(store.saved)
    requires |loginBytes| == RandomTokenSize && |refreshBytes| == RandomTokenSize
    requires later < AddDays(env.now, env.settings.refreshTokenExpirationDays)
    modifies store
    ensures login.success ==> refresh.success && refresh.message == "Token refreshed successfully"
  {
    login := LoginCommitted(store, dto, env, loginBytes);
    store.EndRequest();
    if login.success {
      var issued := store.saved.tokens[|store.saved.tokens| - 1];
      assert TokenMatches(UsableByValue(Encode(loginBytes), later), issued);
    }
    refresh := Refresh(store, Encode(loginBytes), env.(now := later), refreshBytes);
  }
}
