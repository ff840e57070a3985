# Session lifecycle of the Pero API, in Dafny

This project models the authentication core of the Pero back end (a NestJS service):

- `AuthService`: login, registration, refresh-token rotation and logout.
- `UsersService`: the user table those operations run on.
- The configuration builder, which supplies the JWT secrets and lifetimes.

A session is the one `refreshTokenHash` column on a user's row. It is null when the user
has never logged in or has logged out. Otherwise it holds a bcrypt hash of the latest
refresh token. Every login and every successful refresh overwrites it, and logout clears it.

Modules, one per source component:

- `Config` (`config.dfy`): the default export of `src/config/configuration.ts`, as a pure
  function `Load` of the environment map. Each setting is a `||` chain (`FirstSet`). The two
  port numbers go through ECMAScript `parseInt(…, 10)` (`ParseInt10`). NaN is `None`.
- `Bcrypt` (`bcrypt.dfy`): the password hasher, as a pair of functions `digest(plain, salt)`
  and `matches(plain, hash)` that is handed to the services. What bcrypt reads of its input is
  modelled exactly. `Key(s)` is the 72 bytes its key schedule consumes: the UTF-8 encoding of
  `s` followed by a NUL, repeated and cut at 72 bytes. Anything past the 72nd byte is ignored.
  The laws of the hasher are the predicate `Sound`:
  - a hash verifies the plaintext it was made from;
  - a hash is never empty;
  - a hash that verifies one plaintext verifies exactly the plaintexts with the same key.

  `Hash` draws the salt nondeterministically. `SoundHasherExists` shows that the laws are
  consistent.
- `Jwt` (`jwt.dfy`): the token signer, as a pair of functions `sign(payload, secret, ttl, now)`
  and `verify(token, secret, now)`. `verify` may fail (`None`). Two laws are stated, and only
  the lemmas that say so assume them:
  - `RoundTrips`: a token verifies, under its own secret and at the instant it was signed, to
    its payload.
  - `DecodesOnlyItsPayload`: at any instant, such a token verifies to nothing (it has expired)
    or to its own payload.
- `Users` (`users.dfy`): class `UsersService`. Its field `users: map<UserId, UserRow>` is the
  table, and each method updates the field in place. The table's key generator is a
  counter, `nextId`.
- `Auth` (`auth.dfy`): class `AuthService`. It holds the `UsersService` object it changes, the
  signer, and the `jwt` section of the configuration. `RefreshVerdict` is the ordered sequence
  of checks that `refreshToken` makes before it issues anything. The lemmas beside it are about
  sessions across operations:
  - logout revokes the session;
  - after rotation, exactly the tokens with the new token's bcrypt key are accepted;
  - the tokens accepted for a user at any time share one key;
  - a token just issued is accepted until it expires, unless the table changes;
  - a superseded token is still accepted after rotation (see Findings);
  - a refresh in the same second reissues the same token.

The wall clock is an explicit argument `now` of `Login`, `RefreshToken` and `Register`.

Where the documented design and the code disagree, the model follows the code:

- A validly signed refresh token whose subject has no row fails with `findOne`'s
  NotFoundException ("User with ID … not found"), not with 'Invalid refresh token'.
  `findOne` throws, so the guard at `src/modules/auth/auth.service.ts:106-108` can never
  fire (`UnknownSubjectNotFound`).
- A successful refresh does not always produce a new refresh token. Its payload is rebuilt
  from the same stored record, and JWT timestamps count whole seconds. A refresh within the
  same second as the previous issue therefore signs the identical token, and replaying the
  old token is then accepted (`SameInstantRefreshRepeatsToken`).
- Rotation does not revoke the previous refresh token at all while it is unexpired. bcrypt
  reads 72 bytes, and every refresh token signed for the same email and id begins with the
  same 72 bytes. The
  model follows the code (`RotationSupersedes`, `SupersededTokenStillGranted`); the Findings
  section gives the corrected check.
- Emails are not kept unique by `update`, which assigns a new email with no check. So
  `findByEmail` may have several rows to choose from. The model lets it pick any of them, and
  login's contract is exact when one row holds the email.

## Model

| member | source | states |
|---|---|---|
| Config.FirstSet | src/config/configuration.ts:4-24 | a `||` chain over variables yields either its default or the value of one of its variables, and is non-empty whenever its default is |
| Config.FirstSetPicksFirst | src/config/configuration.ts:12-24 | the chain yields the first variable that is set and non-empty |
| Config.FirstSetDefault | src/config/configuration.ts:12-24 | when every variable in the chain is unset or empty, the chain yields the literal default |
| Config.TrimStart | src/config/configuration.ts:2 | parseInt drops exactly the leading run of ECMAScript white space: the dropped prefix is all white space and what remains starts with something else |
| Config.DigitRun | src/config/configuration.ts:2 | the digits parseInt reads are the longest prefix of decimal digits |
| Config.ParseDecimal | src/config/configuration.ts:2 | `parseInt(…, 10)` reads back the decimal numeral of every natural number |
| Config.ParseBlank | src/config/configuration.ts:2 | `parseInt` of an empty or all-blank string is NaN |
| Config.ParseSignedDigits | src/config/configuration.ts:2 | `parseInt(…, 10)` of blanks, at most one sign, a run of digits and anything not continuing the run is the run's decimal value, negated under '-' |
| Config.ParseNoDigits | src/config/configuration.ts:2 | `parseInt(…, 10)` is NaN when what follows the blanks and the optional sign does not begin with a digit |
| Config.DefaultPortLiteral | src/config/configuration.ts:2 | the default '3000' parses to 3000 |
| Config.DefaultDatabasePortLiteral | src/config/configuration.ts:5 | the default '5432' parses to 5432 |
| Config.Load | src/config/configuration.ts:1-31 | every string setting is non-empty, including both JWT secrets and lifetimes, because each chain ends in a non-empty literal |
| Config.PortSetting | src/config/configuration.ts:2 | `port` is 3000 when PORT is unset or empty, and n when PORT is the numeral of n |
| Config.DatabaseDefaults | src/config/configuration.ts:3-9 | with the database variables empty, the settings are localhost, 5432, postgres, password, pero |
| Config.AccessSecretResolution | src/config/configuration.ts:12-15 | the access secret is JWT_ACCESS_SECRET, else JWT_SECRET, else 'your-access-secret' |
| Config.AccessExpiryResolution | src/config/configuration.ts:16-19 | the access lifetime is JWT_ACCESS_EXPIRES_IN, else JWT_EXPIRES_IN, else '15m' |
| Config.RefreshSettingsIsolated | src/config/configuration.ts:21-24 | the refresh secret and lifetime depend on JWT_REFRESH_SECRET and JWT_REFRESH_EXPIRES_IN only, never on JWT_SECRET |
| Config.RefreshDefaults | src/config/configuration.ts:22-23 | without its variables, the refresh secret is 'your-refresh-secret' and the lifetime '7d' |
| Config.DefaultSecretsDistinct | src/config/configuration.ts:12-24 | with no JWT variable set, the access and refresh secrets differ |
| Bcrypt.Hash | src/modules/users/users.service.ts:33 | `bcrypt.hash` gives a non-empty hash that verifies the plaintext, and verifies another string exactly when that string has the same bcrypt key: the bytes bcrypt reads, which for inputs of 72 bytes or more are the first 72 |
| Bcrypt.LongInputTruncated | src/modules/auth/auth.service.ts:67 | two inputs whose UTF-8 encodings share their first 72 bytes have the same key, so bcrypt cannot tell them apart |
| Bcrypt.KeyDeterminesShortAscii | src/modules/auth/auth.service.ts:67 | ASCII strings of one length, at most 72 and without NUL, with the same key are equal: bcrypt reads such strings whole |
| Users.WithRefreshHash | src/modules/users/users.service.ts:94-106 | an update by id of the refresh-hash column changes that column of that row only, and does nothing for an unknown id |
| Users.LastRefreshHashWins | src/modules/users/users.service.ts:94-106 | a second write of the refresh hash overwrites the first, so clearing twice equals clearing once |
| Users.RefreshHashKeepsEmails | src/modules/users/users.service.ts:94-99 | writing the refresh hash keeps emails unique |
| Users.SummariesCount | src/modules/users/users.service.ts:44-56 | the projection lists exactly one summary per row |
| Users.UsersService.Create | src/modules/users/users.service.ts:22-42 | a taken email is refused with the conflict error and the table unchanged; otherwise exactly one row is added under a fresh key, with a hash that verifies the password, the DTO's other fields, role USER and no refresh hash; unique emails stay unique |
| Users.UsersService.FindAll | src/modules/users/users.service.ts:44-56 | one summary (id, email, names, role) per row, with no password or hash column |
| Users.UsersService.FindOne | src/modules/users/users.service.ts:58-64 | succeeds exactly for a stored id and returns that row without its refresh hash; otherwise fails with NotFound(id) |
| Users.UsersService.FindOneWithSensitiveFields | src/modules/users/users.service.ts:66-76 | as FindOne, and also exposes the stored refresh hash |
| Users.UsersService.FindByEmail | src/modules/users/users.service.ts:78-80 | returns null (not an error) exactly when no row holds the email; otherwise a row holding it |
| Users.UsersService.Update | src/modules/users/users.service.ts:82-92 | NotFound for an unknown id, and the table is unchanged; otherwise only that row changes: supplied fields overwrite, a non-empty password is stored as its hash, and role and refresh hash are kept |
| Users.UsersService.SetRefreshTokenHash | src/modules/users/users.service.ts:94-99 | the new table is WithRefreshHash(old, id, hash), and no key is allocated |
| Users.UsersService.ClearRefreshToken | src/modules/users/users.service.ts:101-106 | the new table is WithRefreshHash(old, id, null) |
| Users.UsersService.UpdatePassword | src/modules/users/users.service.ts:108-122 | NotFound for an unknown id; 'Invalid old password' with the table unchanged when the old password does not verify; otherwise only the password column changes, to a hash of the new password, which verifies the old password exactly when the two share their first 72 bytes |
| Users.UsersService.Remove | src/modules/users/users.service.ts:124-127 | NotFound for an unknown id; otherwise exactly that row is deleted |
| Auth.RefreshVerdict | src/modules/auth/auth.service.ts:95-125 | a refresh is granted exactly when the token verifies under the refresh secret, its subject has a row, that row's hash is truthy, and the hash verifies the token; each refusal has its own error: a token that fails the signature check is 'Invalid refresh token' before any lookup, a missing subject is NotFound, a null or empty hash is 'Refresh token revoked', and a hash that does not verify the token is 'Invalid refresh token' |
| Auth.UnknownSubjectNotFound | src/modules/auth/auth.service.ts:105-113 | a signed token for a missing subject fails with findOne's NotFound, so the guard after findOne is unreachable |
| Auth.LogoutRevokes | src/modules/auth/auth.service.ts:115-117 | after logout every refresh for that user fails with 'Refresh token revoked' |
| Auth.RotationSupersedes | src/modules/auth/auth.service.ts:119-134 | after rotation to a hash of a new token, a token for that user is accepted exactly when it shares the new token's first 72 bytes; any other is 'Invalid refresh token' |
| Auth.SingleActiveToken | src/modules/auth/auth.service.ts:115-125 | any two tokens accepted for one user at one time share their first 72 bytes |
| Auth.AuthService.constructor | src/modules/auth/auth.service.ts:14-18 | the service reads the `jwt` settings of the configuration built from the environment |
| Auth.AuthService.SignAccessToken | src/modules/auth/auth.service.ts:40-51 | the access token verifies, under the access secret, to the payload it was signed with |
| Auth.AuthService.SignRefreshToken | src/modules/auth/auth.service.ts:53-64 | the refresh token verifies, under the refresh secret, to the payload it was signed with |
| Auth.AuthService.ValidateUser | src/modules/auth/auth.service.ts:20-38 | returns the user without password or hash only when the stored hash verifies the password; null for an unknown email; exact when one row holds the email |
| Auth.AuthService.SetUserRefreshToken | src/modules/auth/auth.service.ts:66-69 | the user's row alone gets a new non-empty hash that verifies the token |
| Auth.AuthService.Login | src/modules/auth/auth.service.ts:71-93 | the same 'Invalid credentials' for an unknown email and for a wrong password, with the table unchanged; on success it returns the tokens signed from {email, sub: id, role} under the access and the refresh settings, plus role, email and names, and the user's hash now verifies the new refresh token, overwriting any earlier one |
| Auth.AuthService.RefreshToken | src/modules/auth/auth.service.ts:95-140 | every refusal leaves the table unchanged; on success the pair is signed from the stored record, not from the decoded claims, and only that user's hash is rotated to one that verifies the new refresh token |
| Auth.AuthService.Logout | src/modules/auth/auth.service.ts:142-144 | clears the user's hash unconditionally, and succeeds for any id |
| Auth.AuthService.Register | src/modules/auth/auth.service.ts:146-149 | a taken email gives the conflict error and no login happens; otherwise exactly one row is added, and the result is the login response for that row, which succeeds because the stored hash was made from the password |
| Auth.AuthService.IssuedRefreshTokenAccepted | src/modules/auth/auth.service.ts:127-134 | a refresh token issued and stored, by login or by refresh, is accepted by a refresh at any later instant at which it still verifies, while the table is unchanged |
| Auth.AuthService.SupersededTokenStillGranted | src/modules/auth/auth.service.ts:119-134 | after a refresh rotates the stored hash, the refresh token it replaced is still accepted at any instant at which it still verifies |
| Auth.AuthService.SameInstantRefreshRepeatsToken | src/modules/auth/auth.service.ts:127-134 | a refresh in the same instant as the previous issue reissues the identical token, and the old token is then still accepted |

## Left out

- The controllers, bootstrap, dependency-injection wiring and the Passport JWT strategy are
  not modelled. They route requests and pass values through.
- Request validation by class-validator is not modelled. The minimum password length and the
  email format are not preconditions anywhere.
- `src/modules/auth/dto/login.dto.ts`, `src/modules/users/dto/update-user.dto.ts` and the
  `UserRole` enum are not part of this model. LoginDto is taken to be {email, password},
  UpdateUserDto to be a partial CreateUserDto, and UserRole to be {USER, ADMIN}.
- A new row's role is the column default, USER. The entity file declares neither `role` nor
  `refreshTokenHash`. The model gives rows both columns, because the services use both.
- Timestamps (`createdAt`, `updatedAt`) are not modelled. Neither is the `phoneNumber` column,
  which no core operation reads or writes.
- The uuid primary key is modelled by a counter. This keeps keys fresh; it does not model
  their format.
- bcrypt itself is not modelled: its cost factor, salt generation and constant-time
  comparison. The laws in `Bcrypt.Sound` stand for it. They idealise Blowfish: two different
  keys never give the same hash.
- JWT signing algorithms, encoding and expiry arithmetic are not modelled. Verification is
  the oracle `verify`, which may fail. The byte layout of a signed token enters only through
  `Auth.KeyIndependentOfInstant`. It is a hypothesis of `SupersededTokenStillGranted` and is
  not derived from an encoder.
- Auth.AuthService.SignAccessToken: says what the token decodes to only when the signer obeys
  the round-trip law, because the signer library is not modelled.
- Auth.AuthService.SignRefreshToken: the same limitation as SignAccessToken.
- The two signatures that `Promise.all` runs concurrently are modelled in sequence, at one
  instant. Races between concurrent refreshes of one user are not modelled.
- Database failures and the table's own unique-email constraint are not modelled. A save
  that the database would reject is modelled as succeeding.
- `findAll` returns a set: the order of rows is left to the database and is not modelled.
- `parseInt` results beyond 2^53 lose precision in JavaScript, and `-0` is distinct from
  `0` there. The model uses exact integers.
- Users.UsersService.Update: follows the code's truthiness test. A supplied empty password is
  stored as the empty string, unhashed. The DTO's validators would normally refuse such a
  request, and they are not part of this model.

## Findings

| source | as written | input that shows it | evidently intended | confidence | as-written member | corrected member |
|---|---|---|---|---|---|---|
| src/modules/auth/auth.service.ts:66-69 | the stored refresh hash is `bcrypt.hash(refreshToken, 10)` of the whole token, and bcrypt reads only the first 72 bytes | two refresh tokens signed for one user, with the same email, at different seconds; both begin with the HS256 header `eyJhbGciOiJIUzI1NiIsInR5cCI6IkpXVCJ9`, a dot and the base64url of `{"email":"…","sub":"…`, which fill the first 72 bytes | a refresh rotates the session: the previous refresh token is refused afterwards (auth.service.ts:133) | not executed; high, from bcrypt's 72-byte key and the token layout | Auth.AuthService.SupersededTokenStillGranted | Auth.DigestedRotationSupersedes |

The corrected check hashes a full-length digest of the token, such as its SHA-256 in hex
(64 ASCII characters), instead of the token itself. `DigestedRefreshVerdict` is that check,
and `DigestedRotationSupersedes` proves that after rotation only the new token is accepted,
for any presented token whose digest differs from that of the new token. The digest only has
to be 64 ASCII characters (`ShortDigest`). No such function separates every pair of strings,
so telling the two tokens at hand apart is a hypothesis about that pair, which SHA-256 meets
unless a collision is found. The service itself is modelled as written.
