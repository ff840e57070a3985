/** AuthService (src/modules/auth/auth.service.ts): login, registration, refresh-token
    rotation and logout over the user table. A session is the single refresh-token hash
    stored on the user's row: absent (never logged in, or logged out) or present, and
    replaced by every login and every successful refresh. */
module Auth {
  import opened Wrappers
  import Bcrypt
  import Jwt
  import Config
  import opened Users

  /** The payload both tokens carry: `{ email, sub: id, role }`. */
  datatype Claims = Claims(email: string, sub: UserId, role: UserRole)

  datatype LoginDto = LoginDto(email: string, password: string)

  /** validateUser's result: the user without password and refreshTokenHash. */
  datatype SafeUser = SafeUser(
    id: UserId, role: UserRole, email: string, firstName: string, lastName: string)

  /** login's result: the token pair and the public profile, never a password or hash. */
  datatype LoginResponse = LoginResponse(
    accessToken: string, refreshToken: string,
    role: UserRole, email: string, firstName: string, lastName: string)

  datatype TokenPair = TokenPair(accessToken: string, refreshToken: string)

  const InvalidCredentials := "Invalid credentials"
  const InvalidRefreshToken := "Invalid refresh token"
  const RefreshTokenRevoked := "Refresh token revoked"

  function Safe(id: UserId, row: UserRow): SafeUser
  {
    SafeUser(id, row.role, row.email, row.firstName, row.lastName)
  }

  /** The payload signed for a row: built from the stored record, never from a token. */
  function ClaimsOf(id: UserId, row: UserRow): Claims
  {
    Claims(row.email, id, row.role)
  }

  /** A stored hash passes the `?.refreshTokenHash` test only when it is truthy: present
      and not the empty string. */
  predicate Truthy(h: Option<string>)
  {
    h.Some? && h.value != ""
  }

  /** After a token was issued to `id`: its row, and only that row's refresh hash,
      changed, and the new hash is a non-empty hash of `token`. */
  ghost predicate StoresHashOf(m: Table, m': Table, id: UserId, token: string, h: Bcrypt.PasswordHasher)
  {
    && id in m && id in m'
    && Truthy(m'[id].refreshTokenHash)
    && h.matches(token, m'[id].refreshTokenHash.value)
    && m' == WithRefreshHash(m, id, m'[id].refreshTokenHash)
  }

  /** What the checks of refreshToken decide, in their order: the signature (given as
      the decoded payload, None when verification failed), the subject's row, a stored
      hash, and the presented token against that hash. */
  datatype Verdict = Denied(reason: Failure) | Granted(id: UserId)

  function RefreshVerdict(m: Table, decoded: Option<Claims>, token: string, h: Bcrypt.PasswordHasher): (v: Verdict)
    ensures v.Granted? <==>
      && decoded.Some? && decoded.value.sub in m
      && Truthy(m[decoded.value.sub].refreshTokenHash)
      && h.matches(token, m[decoded.value.sub].refreshTokenHash.value)
    ensures v.Granted? ==> v.id == decoded.value.sub
    ensures decoded.None? ==> v == Denied(Unauthorized(InvalidRefreshToken))
    ensures decoded.Some? && decoded.value.sub !in m ==> v == Denied(NotFound(decoded.value.sub))
    ensures decoded.Some? && decoded.value.sub in m && !Truthy(m[decoded.value.sub].refreshTokenHash) ==>
      v == Denied(Unauthorized(RefreshTokenRevoked))
    ensures && decoded.Some? && decoded.value.sub in m && Truthy(m[decoded.value.sub].refreshTokenHash)
            && !h.matches(token, m[decoded.value.sub].refreshTokenHash.value)
            ==> v == Denied(Unauthorized(InvalidRefreshToken))
  {
    match decoded
    case None => Denied(Unauthorized(InvalidRefreshToken))
    case Some(c) =>
      if c.sub !in m then Denied(NotFound(c.sub))
      else if !Truthy(m[c.sub].refreshTokenHash) then Denied(Unauthorized(RefreshTokenRevoked))
      else if !h.matches(token, m[c.sub].refreshTokenHash.value) then Denied(Unauthorized(InvalidRefreshToken))
      else Granted(c.sub)
  }

  /** A validly signed token whose subject has no row is refused with findOne's
      NotFound; the 'Invalid refresh token' guard after findOne is never reached. */
  lemma UnknownSubjectNotFound(m: Table, c: Claims, token: string, h: Bcrypt.PasswordHasher)
    requires c.sub !in m
    ensures RefreshVerdict(m, Some(c), token, h) == Denied(NotFound(c.sub))
  {
  }

  /** After logout, every refresh for that user is refused as revoked, whatever token
      is presented. */
  lemma LogoutRevokes(m: Table, c: Claims, token: string, h: Bcrypt.PasswordHasher)
    requires c.sub in m
    ensures RefreshVerdict(WithRefreshHash(m, c.sub, None), Some(c), token, h)
         == Denied(Unauthorized(RefreshTokenRevoked))
  {
  }

  /** After the stored hash is rotated to a hash of `issued`, a token naming that user
      is accepted exactly when bcrypt cannot tell it from `issued`, that is when the two
      agree on their first 72 bytes; every other token is refused as invalid. */
  lemma RotationSupersedes(m: Table, m': Table, c: Claims, issued: string, token: string, h: Bcrypt.PasswordHasher)
    requires Bcrypt.Sound(h)
    requires StoresHashOf(m, m', c.sub, issued, h)
    ensures RefreshVerdict(m', Some(c), token, h) ==
      if Bcrypt.Key(token) == Bcrypt.Key(issued) then Granted(c.sub)
      else Denied(Unauthorized(InvalidRefreshToken))
  {
  }

  /** At any time the tokens accepted for one user are those sharing one bcrypt key:
      the key of the token whose hash is stored. */
  lemma SingleActiveToken(m: Table, c: Claims, c': Claims, t: string, t': string, h: Bcrypt.PasswordHasher)
    requires Bcrypt.Sound(h)
    requires RefreshVerdict(m, Some(c), t, h).Granted?
    requires RefreshVerdict(m, Some(c'), t', h).Granted?
    requires c.sub == c'.sub
    ensures Bcrypt.Key(t) == Bcrypt.Key(t')
  {
    var d := m[c.sub].refreshTokenHash.value;
    assert h.matches(t, d) && h.matches(t', d);
  }

  /** The layout of an HS256 token signed by jsonwebtoken: the fixed header, a dot and
      the base64url of `{"email":…,"sub":…,"role":…,"iat":…,"exp":…}`. Its first 72
      bytes end inside the email or the subject, before the instant of signing, so two
      tokens signed from one payload under one secret and lifetime share their key. */
  ghost predicate KeyIndependentOfInstant(s: Jwt.TokenSigner<Claims>)
  {
    forall p, secret, ttl, t, t' ::
      Bcrypt.Key(s.sign(p, secret, ttl, t)) == Bcrypt.Key(s.sign(p, secret, ttl, t'))
  }

  /** A digest for refresh tokens that bcrypt reads whole: always 64 ASCII characters,
      as the hex form of SHA-256 is. */
  ghost predicate ShortDigest(digest: string -> string)
  {
    forall s :: |digest(s)| == 64 && Bcrypt.IsAscii(digest(s))
  }

  /** The refresh check with the token digested before bcrypt sees it, as the stored
      hash would then be made: `bcrypt.hash(digest(token))`. */
  function DigestedRefreshVerdict(m: Table, decoded: Option<Claims>, token: string,
                                  h: Bcrypt.PasswordHasher, digest: string -> string): (v: Verdict)
    ensures v.Granted? <==>
      && decoded.Some? && decoded.value.sub in m
      && Truthy(m[decoded.value.sub].refreshTokenHash)
      && h.matches(digest(token), m[decoded.value.sub].refreshTokenHash.value)
  {
    RefreshVerdict(m, decoded, digest(token), h)
  }

  /** Rotation as intended: once the stored hash is a hash of the digest of `issued`,
      a token naming that user is accepted exactly when it is `issued`, and the token
      it replaced is refused, provided the digest tells that token from `issued`
      (no digest does so for every pair, but SHA-256 does for every pair anyone finds). */
  lemma DigestedRotationSupersedes(m: Table, m': Table, c: Claims, issued: string, token: string,
                                   h: Bcrypt.PasswordHasher, digest: string -> string)
    requires Bcrypt.Sound(h) && ShortDigest(digest)
    requires token != issued ==> digest(token) != digest(issued)
    requires StoresHashOf(m, m', c.sub, digest(issued), h)
    ensures DigestedRefreshVerdict(m', Some(c), token, h, digest) ==
      if token == issued then Granted(c.sub) else Denied(Unauthorized(InvalidRefreshToken))
  {
    RotationSupersedes(m, m', c, digest(issued), digest(token), h);
    if Bcrypt.Key(digest(token)) == Bcrypt.Key(digest(issued)) {
      Bcrypt.KeyDeterminesShortAscii(digest(token), digest(issued));
    }
  }

  class AuthService {
    const users: UsersService
    const signer: Jwt.TokenSigner<Claims>
    /** The `jwt` section of the configuration: secrets and lifetimes of both tokens. */
    const jwt: Config.JwtSettings

    ghost predicate Valid()
      reads users
    {
      users.Valid()
    }

    constructor (users: UsersService, signer: Jwt.TokenSigner<Claims>, env: Config.Env)
      requires users.Valid()
      ensures Valid() && this.users == users && jwt == Config.Load(env).jwt
    {
      this.users := users;
      this.signer := signer;
      this.jwt := Config.Load(env).jwt;
    }

    /** `signAccessToken`: the payload signed with the access secret and lifetime. */
    function SignAccessToken(p: Claims, now: Jwt.Instant): (token: string)
      ensures Jwt.RoundTrips(signer) ==> signer.verify(token, jwt.access.secret, now) == Some(p)
    {
      signer.sign(p, jwt.access.secret, jwt.access.expiresIn, now)
    }

    /** `signRefreshToken`: the payload signed with the refresh secret and lifetime, so
        that refreshToken's first check accepts it. */
    function SignRefreshToken(p: Claims, now: Jwt.Instant): (token: string)
      ensures Jwt.RoundTrips(signer) ==> signer.verify(token, jwt.refresh.secret, now) == Some(p)
    {
      signer.sign(p, jwt.refresh.secret, jwt.refresh.expiresIn, now)
    }

    /** The response login gives the user stored under `id` as `row`. */
    function Session(id: UserId, row: UserRow, now: Jwt.Instant): LoginResponse
    {
      var p := ClaimsOf(id, row);
      LoginResponse(SignAccessToken(p, now), SignRefreshToken(p, now),
                    row.role, row.email, row.firstName, row.lastName)
    }

    /** `validateUser`: the user holding the email, when the password verifies against
        its stored hash; null when the email is unknown or the password does not verify. */
    method ValidateUser(email: string, password: string) returns (r: Option<SafeUser>)
      ensures r.Some? ==>
        && r.value.id in users.users
        && users.users[r.value.id].email == email
        && users.hasher.matches(password, users.users[r.value.id].password)
        && r.value == Safe(r.value.id, users.users[r.value.id])
      ensures !EmailInUse(users.users, email) ==> r.None?
      ensures forall id :: SoleHolder(users.users, email, id) ==>
        (r.Some? <==> users.hasher.matches(password, users.users[id].password))
    {
      var user := users.FindByEmail(email);
      if user.Some? && users.hasher.matches(password, user.value.password) {
        var u := user.value;
        r := Some(Safe(u.id, users.users[u.id]));
      } else {
        r := None;
      }
    }

    /** `setUserRefreshToken`: stores a new hash of the token on the user's row. */
    method SetUserRefreshToken(userId: UserId, refreshToken: string)
      requires Valid()
      modifies users
      ensures Valid() && users.nextId == old(users.nextId)
      ensures userId in old(users.users) ==>
        StoresHashOf(old(users.users), users.users, userId, refreshToken, users.hasher)
      ensures userId !in old(users.users) ==> users.users == old(users.users)
    {
      var refreshTokenHash := Bcrypt.Hash(users.hasher, refreshToken);
      users.SetRefreshTokenHash(userId, refreshTokenHash);
    }

    /** `login`: 'Invalid credentials', with the table untouched, whether the email is
        unknown or the password does not verify; otherwise the payload of the stored
        record is signed under both secrets and a hash of the new refresh token
        replaces whatever that user's row held. `subject` names the user logged in. */
    method Login(dto: LoginDto, now: Jwt.Instant) returns (r: Result<LoginResponse, Failure>, ghost subject: UserId)
      requires Valid()
      modifies users
      ensures Valid() && users.nextId == old(users.nextId)
      ensures r.Err? ==> r.error == Unauthorized(InvalidCredentials) && users.users == old(users.users)
      ensures !EmailInUse(old(users.users), dto.email) ==> r.Err?
      ensures forall id :: SoleHolder(old(users.users), dto.email, id) ==>
        && (r.Ok? <==> users.hasher.matches(dto.password, old(users.users)[id].password))
        && (r.Ok? ==> subject == id)
      ensures r.Ok? ==>
        && subject in old(users.users)
        && old(users.users)[subject].email == dto.email
        && users.hasher.matches(dto.password, old(users.users)[subject].password)
        && r.value == Session(subject, old(users.users)[subject], now)
        && StoresHashOf(old(users.users), users.users, subject, r.value.refreshToken, users.hasher)
    {
      var user := ValidateUser(dto.email, dto.password);
      if user.None? {
        return Err(Unauthorized(InvalidCredentials)), 0;
      }
      var u := user.value;
      var payload := ClaimsOf(u.id, users.users[u.id]);
      var accessToken := SignAccessToken(payload, now);
      var refreshToken := SignRefreshToken(payload, now);
      SetUserRefreshToken(u.id, refreshToken);
      subject := u.id;
      r := Ok(LoginResponse(accessToken, refreshToken, u.role, u.email, u.firstName, u.lastName));
    }

    /** `refreshToken`: the checks of RefreshVerdict, in order, and a refusal changes
        nothing. On success a new pair is signed from the stored record (not from the
        decoded claims) and the stored hash is rotated to a hash of the new refresh
        token, leaving every other row and column as it was. */
    method RefreshToken(refreshToken: string, now: Jwt.Instant) returns (r: Result<TokenPair, Failure>)
      requires Valid()
      modifies users
      ensures Valid() && users.nextId == old(users.nextId)
      ensures
        var v := RefreshVerdict(old(users.users), signer.verify(refreshToken, jwt.refresh.secret, now),
                                refreshToken, users.hasher);
        && (v.Denied? ==> r == Err(v.reason) && users.users == old(users.users))
        && (v.Granted? ==>
              && v.id in old(users.users)
              && var p := ClaimsOf(v.id, old(users.users)[v.id]);
              && r == Ok(TokenPair(SignAccessToken(p, now), SignRefreshToken(p, now)))
              && StoresHashOf(old(users.users), users.users, v.id, r.value.refreshToken, users.hasher))
    {
      var decoded := signer.verify(refreshToken, jwt.refresh.secret, now);
      if decoded.None? {
        return Err(Unauthorized(InvalidRefreshToken));
      }
      var sub := decoded.value.sub;
      var found := users.FindOne(sub);
      if found.Err? {
        return Err(found.error);
      }
      var user := found.value;
      // findOne throws for a missing row, so the `!user || !user.id` guard that follows
      // it in `refreshToken` cannot fire; it has no counterpart here.
      var userWithToken := users.FindOneWithSensitiveFields(sub).value;
      if !Truthy(userWithToken.refreshTokenHash) {
        return Err(Unauthorized(RefreshTokenRevoked));
      }
      if !users.hasher.matches(refreshToken, userWithToken.refreshTokenHash.value) {
        return Err(Unauthorized(InvalidRefreshToken));
      }
      var payload := ClaimsOf(user.id, users.users[user.id]);
      var newAccessToken := SignAccessToken(payload, now);
      var newRefreshToken := SignRefreshToken(payload, now);
      SetUserRefreshToken(user.id, newRefreshToken);
      r := Ok(TokenPair(newAccessToken, newRefreshToken));
    }

    /** `logout`: clears the stored hash unconditionally; logging out twice succeeds
        both times and leaves the same table as once. */
    method Logout(userId: UserId)
      requires Valid()
      modifies users
      ensures Valid() && users.nextId == old(users.nextId)
      ensures users.users == WithRefreshHash(old(users.users), userId, None)
    {
      users.ClearRefreshToken(userId);
    }

    /** `register`: a taken email is refused with the conflict error and nothing else
        happens; otherwise exactly one row is added and the result is the login of the
        new user with the plaintext password, which succeeds because the stored hash
        was made from it. `subject` names the new user. */
    method Register(dto: CreateUserDto, now: Jwt.Instant) returns (r: Result<LoginResponse, Failure>, ghost subject: UserId)
      requires Valid()
      modifies users
      ensures Valid()
      ensures EmailInUse(old(users.users), dto.email) ==>
        r == Err(Conflict(EmailTaken)) && users.users == old(users.users)
      ensures !EmailInUse(old(users.users), dto.email) ==>
        && r.Ok? && subject !in old(users.users) && subject in users.users
        && users.users.Keys == old(users.users).Keys + {subject}
        && (forall id :: id in old(users.users) ==> users.users[id] == old(users.users)[id])
        && var row := users.users[subject];
        && row.email == dto.email && row.firstName == dto.firstName && row.lastName == dto.lastName
        && row.role == USER
        && users.hasher.matches(dto.password, row.password)
        && r.value == Session(subject, row, now)
        && Truthy(row.refreshTokenHash)
        && users.hasher.matches(r.value.refreshToken, row.refreshTokenHash.value)
    {
      var created := users.Create(dto);
      if created.Err? {
        return Err(created.error), 0;
      }
      ghost var id := created.value.id;
      assert SoleHolder(users.users, dto.email, id);
      r, subject := Login(LoginDto(created.value.email, dto.password), now);
    }

    /** Login followed by refresh, and refresh followed by refresh: the refresh token
        issued to a user and stored as their hash is accepted by every later refresh at
        which the signer still decodes it, as long as the table is not changed again. */
    lemma IssuedRefreshTokenAccepted(m: Table, m': Table, id: UserId, issuedAt: Jwt.Instant, later: Jwt.Instant)
      requires Jwt.DecodesOnlyItsPayload(signer) && Bcrypt.Sound(users.hasher)
      requires id in m
      requires StoresHashOf(m, m', id, SignRefreshToken(ClaimsOf(id, m[id]), issuedAt), users.hasher)
      requires signer.verify(SignRefreshToken(ClaimsOf(id, m[id]), issuedAt), jwt.refresh.secret, later).Some?
      ensures
        var token := SignRefreshToken(ClaimsOf(id, m[id]), issuedAt);
        RefreshVerdict(m', signer.verify(token, jwt.refresh.secret, later), token, users.hasher) == Granted(id)
    {
      var token := SignRefreshToken(ClaimsOf(id, m[id]), issuedAt);
      assert signer.verify(token, jwt.refresh.secret, later) == Some(ClaimsOf(id, m[id]));
    }

    /** Rotation as written does not revoke the previous refresh token. The token issued
        at `issuedAt` and the one that replaced it at `rotatedAt` are signed from the
        same stored record, so they share their first 72 bytes, and the rotated hash
        verifies both: until it expires, the superseded token is still accepted. */
    lemma SupersededTokenStillGranted(m: Table, m1: Table, m2: Table, id: UserId,
                                      issuedAt: Jwt.Instant, rotatedAt: Jwt.Instant, later: Jwt.Instant)
      requires KeyIndependentOfInstant(signer) && Jwt.DecodesOnlyItsPayload(signer)
      requires Bcrypt.Sound(users.hasher)
      requires id in m
      requires StoresHashOf(m, m1, id, SignRefreshToken(ClaimsOf(id, m[id]), issuedAt), users.hasher)
      requires StoresHashOf(m1, m2, id, SignRefreshToken(ClaimsOf(id, m1[id]), rotatedAt), users.hasher)
      requires signer.verify(SignRefreshToken(ClaimsOf(id, m[id]), issuedAt), jwt.refresh.secret, later).Some?
      ensures
        var previous := SignRefreshToken(ClaimsOf(id, m[id]), issuedAt);
        RefreshVerdict(m2, signer.verify(previous, jwt.refresh.secret, later), previous, users.hasher) == Granted(id)
    {
      var p := ClaimsOf(id, m[id]);
      assert ClaimsOf(id, m1[id]) == p;
      var previous := SignRefreshToken(p, issuedAt);
      var rotated := SignRefreshToken(p, rotatedAt);
      assert Bcrypt.Key(previous) == Bcrypt.Key(rotated);
      assert signer.verify(previous, jwt.refresh.secret, later) == Some(p);
      RotationSupersedes(m1, m2, p, rotated, previous, users.hasher);
    }

    /** Rotation does not always change the token. The signed payload is rebuilt from the
        same stored record, so a refresh at the instant of the previous issue signs the
        very token it was given, and replaying that token is accepted. */
    lemma SameInstantRefreshRepeatsToken(m: Table, m1: Table, m2: Table, id: UserId, now: Jwt.Instant)
      requires Jwt.RoundTrips(signer) && Bcrypt.Sound(users.hasher)
      requires id in m
      requires StoresHashOf(m, m1, id, SignRefreshToken(ClaimsOf(id, m[id]), now), users.hasher)
      requires StoresHashOf(m1, m2, id, SignRefreshToken(ClaimsOf(id, m1[id]), now), users.hasher)
      ensures SignRefreshToken(ClaimsOf(id, m1[id]), now) == SignRefreshToken(ClaimsOf(id, m[id]), now)
      ensures
        var previous := SignRefreshToken(ClaimsOf(id, m[id]), now);
        RefreshVerdict(m2, signer.verify(previous, jwt.refresh.secret, now), previous, users.hasher) == Granted(id)
    {
      assert ClaimsOf(id, m1[id]) == ClaimsOf(id, m[id]);
    }
  }
}
