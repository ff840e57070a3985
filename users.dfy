/** The user table and UsersService (src/modules/users/users.service.ts): keyed
    reads that throw NotFoundException, a create with a duplicate-email check, and
    in-place updates of single rows. */
module Users {
  import opened Wrappers
  import Bcrypt

  /** A user's primary key. The table generates it (a uuid column); the model draws
      keys from a counter, which is what makes them fresh. */
  type UserId = nat

  datatype UserRole = USER | ADMIN

  /** A row of the users table: the columns the services read and write. */
  datatype UserRow = UserRow(
    email: string,
    password: string,  // a bcrypt hash, never the plaintext
    role: UserRole,
    firstName: string,
    lastName: string,
    refreshTokenHash: Option<string>)

  /** A user as a default query returns it: refreshTokenHash is not selected. */
  datatype User = User(
    id: UserId, email: string, password: string, role: UserRole, firstName: string, lastName: string)

  /** A user read with the hidden refreshTokenHash column added to the selection. */
  datatype UserWithSecrets = UserWithSecrets(user: User, refreshTokenHash: Option<string>)

  /** The columns findAll selects. */
  datatype UserSummary = UserSummary(
    id: UserId, email: string, firstName: string, lastName: string, role: UserRole)

  datatype CreateUserDto = CreateUserDto(
    email: string, password: string, firstName: string, lastName: string)

  /** A partial CreateUserDto: an absent property is None. */
  datatype UpdateUserDto = UpdateUserDto(
    email: Option<string>, password: Option<string>,
    firstName: Option<string>, lastName: Option<string>)

  datatype UpdatePasswordDto = UpdatePasswordDto(oldPassword: string, newPassword: string)

  /** NotFoundException, ConflictException and UnauthorizedException. */
  datatype Failure = NotFound(id: UserId) | Conflict(message: string) | Unauthorized(message: string)

  const EmailTaken := "User with this email already exists"
  const InvalidOldPassword := "Invalid old password"

  type Table = map<UserId, UserRow>

  function Selected(id: UserId, row: UserRow): User
  {
    User(id, row.email, row.password, row.role, row.firstName, row.lastName)
  }

  function Summary(id: UserId, row: UserRow): UserSummary
  {
    UserSummary(id, row.email, row.firstName, row.lastName, row.role)
  }

  predicate EmailInUse(m: Table, email: string)
  {
    exists id :: id in m && m[id].email == email
  }

  /** `id` is the one row holding `email`. */
  predicate SoleHolder(m: Table, email: string, id: UserId)
  {
    && id in m && m[id].email == email
    && forall other :: other in m && m[other].email == email ==> other == id
  }

  ghost predicate UniqueEmails(m: Table)
  {
    forall i, j :: i in m && j in m && m[i].email == m[j].email ==> i == j
  }

  /** `repository.update({ id }, { refreshTokenHash: h })`: the column changes on the row
      with that id, and nothing happens when there is none. */
  function WithRefreshHash(m: Table, id: UserId, h: Option<string>): (r: Table)
    ensures r.Keys == m.Keys
    ensures id in m ==> r[id] == m[id].(refreshTokenHash := h)
    ensures forall other :: other in m && other != id ==> r[other] == m[other]
  {
    if id in m then m[id := m[id].(refreshTokenHash := h)] else m
  }

  /** Each write of the refresh hash overwrites the previous one; in particular clearing
      twice is clearing once. */
  lemma LastRefreshHashWins(m: Table, id: UserId, a: Option<string>, b: Option<string>)
    ensures WithRefreshHash(WithRefreshHash(m, id, a), id, b) == WithRefreshHash(m, id, b)
  {
  }

  /** Writing the refresh hash never touches an email, so it keeps emails unique. */
  lemma RefreshHashKeepsEmails(m: Table, id: UserId, h: Option<string>)
    requires UniqueEmails(m)
    ensures UniqueEmails(WithRefreshHash(m, id, h))
  {
  }

  /** Distinct keys give distinct summaries, so findAll lists one entry per row. */
  lemma {:induction false} SummariesCount(m: Table)
    ensures |set id | id in m :: Summary(id, m[id])| == |m|
    decreases |m|
  {
    if m != map[] {
      var k :| k in m;
      var rest := m - {k};
      SummariesCount(rest);
      var all := set id | id in m :: Summary(id, m[id]);
      var others := set id | id in rest :: Summary(id, rest[id]);
      forall s | s in all ensures s in others + {Summary(k, m[k])} {
        var id :| id in m && s == Summary(id, m[id]);
        if id != k { assert id in rest; }
      }
      assert all == others + {Summary(k, m[k])};
      assert Summary(k, m[k]) !in others;
      assert |rest| == |m| - 1 by { assert rest.Keys == m.Keys - {k}; }
    }
  }

  class UsersService {
    const hasher: Bcrypt.PasswordHasher
    /** The users table, by primary key. */
    var users: Table
    /** The next key the table will generate. */
    var nextId: UserId

    ghost predicate Valid()
      reads this
    {
      && Bcrypt.Sound(hasher)
      && forall id :: id in users ==> id < nextId
    }

    constructor (hasher: Bcrypt.PasswordHasher)
      requires Bcrypt.Sound(hasher)
      ensures Valid() && this.hasher == hasher
      ensures users == map[]
    {
      this.hasher := hasher;
      users := map[];
      nextId := 0;
    }

    /** `create`: refuses an email that is already taken, before anything is hashed or
        stored; otherwise adds exactly one row, under a fresh key, holding a hash of
        the password, the DTO's other fields, the default role and no refresh hash. */
    method Create(dto: CreateUserDto) returns (r: Result<User, Failure>)
      requires Valid()
      modifies this
      ensures Valid()
      ensures EmailInUse(old(users), dto.email) ==>
        r == Err(Conflict(EmailTaken)) && users == old(users) && nextId == old(nextId)
      ensures !EmailInUse(old(users), dto.email) ==>
        && r.Ok? && r.value.id !in old(users) && r.value.id in users
        && users == old(users)[r.value.id := users[r.value.id]]
        && var row := users[r.value.id];
        && row.email == dto.email && row.firstName == dto.firstName && row.lastName == dto.lastName
        && row.role == USER && row.refreshTokenHash == None
        && hasher.matches(dto.password, row.password)
        && r.value == Selected(r.value.id, row)
      ensures UniqueEmails(old(users)) ==> UniqueEmails(users)
    {
      if EmailInUse(users, dto.email) {
        return Err(Conflict(EmailTaken));
      }
      var hashed := Bcrypt.Hash(hasher, dto.password);
      var id := nextId;
      var row := UserRow(dto.email, hashed, USER, dto.firstName, dto.lastName, None);
      users := users[id := row];
      nextId := nextId + 1;
      r := Ok(Selected(id, row));
    }

    /** `findAll`: one summary per row, and no password or hash column. */
    function FindAll(): (r: set<UserSummary>)
      reads this
      ensures forall id :: id in users ==> Summary(id, users[id]) in r
      ensures forall s :: s in r ==> s.id in users && s == Summary(s.id, users[s.id])
      ensures |r| == |users|
    {
      SummariesCount(users);
      set id | id in users :: Summary(id, users[id])
    }

    /** `findOne`: the row with that key, without its refresh hash, or NotFound. */
    function FindOne(id: UserId): (r: Result<User, Failure>)
      reads this
      ensures r.Ok? <==> id in users
      ensures r.Ok? ==> r.value.id == id && r.value == Selected(id, users[id])
      ensures r.Err? ==> r.error == NotFound(id)
    {
      if id in users then Ok(Selected(id, users[id])) else Err(NotFound(id))
    }

    /** `findOneWithSensitiveFields`: as findOne, but with the refresh hash selected. */
    function FindOneWithSensitiveFields(id: UserId): (r: Result<UserWithSecrets, Failure>)
      reads this
      ensures r.Ok? <==> id in users
      ensures r.Ok? ==> r.value.user == Selected(id, users[id])
      ensures r.Ok? ==> r.value.refreshTokenHash == users[id].refreshTokenHash
      ensures r.Err? ==> r.error == NotFound(id)
    {
      if id in users then Ok(UserWithSecrets(Selected(id, users[id]), users[id].refreshTokenHash))
      else Err(NotFound(id))
    }

    /** `findByEmail`: a row holding that email, or null (not an error) when there is
        none. Which row, when several hold it, is the database's choice. */
    method FindByEmail(email: string) returns (r: Option<User>)
      ensures r.None? <==> !EmailInUse(users, email)
      ensures r.Some? ==>
        && r.value.id in users && users[r.value.id].email == email
        && r.value == Selected(r.value.id, users[r.value.id])
    {
      if EmailInUse(users, email) {
        var id :| id in users && users[id].email == email;
        r := Some(Selected(id, users[id]));
      } else {
        r := None;
      }
    }

    /** `update`: NotFound for an unknown key; otherwise a non-empty password is hashed
        first and the supplied properties overwrite the row's. */
    method Update(id: UserId, dto: UpdateUserDto) returns (r: Result<User, Failure>)
      requires Valid()
      modifies this
      ensures Valid() && nextId == old(nextId)
      ensures id !in old(users) ==> r == Err(NotFound(id)) && users == old(users)
      ensures id in old(users) ==>
        && r.Ok? && id in users
        && users == old(users)[id := users[id]]
        && var before, after := old(users)[id], users[id];
        && after.email == (if dto.email.Some? then dto.email.value else before.email)
        && after.firstName == (if dto.firstName.Some? then dto.firstName.value else before.firstName)
        && after.lastName == (if dto.lastName.Some? then dto.lastName.value else before.lastName)
        && after.role == before.role
        && after.refreshTokenHash == before.refreshTokenHash
        && (dto.password.None? ==> after.password == before.password)
        && (dto.password == Some("") ==> after.password == "")
        && (dto.password.Some? && dto.password.value != "" ==>
              hasher.matches(dto.password.value, after.password))
        && r.value == Selected(id, after)
    {
      var found := FindOne(id);
      if found.Err? {
        return Err(found.error);
      }
      var password := dto.password;
      if password.Some? && password.value != "" {
        var hashed := Bcrypt.Hash(hasher, password.value);
        password := Some(hashed);
      }
      var row := users[id];
      var updated := UserRow(
        if dto.email.Some? then dto.email.value else row.email,
        if password.Some? then password.value else row.password,
        row.role,
        if dto.firstName.Some? then dto.firstName.value else row.firstName,
        if dto.lastName.Some? then dto.lastName.value else row.lastName,
        row.refreshTokenHash);
      users := users[id := updated];
      r := Ok(Selected(id, updated));
    }

    /** `setRefreshTokenHash`: stores the hash on that row; a silent no-op for an
        unknown key. */
    method SetRefreshTokenHash(userId: UserId, refreshTokenHash: string)
      requires Valid()
      modifies this
      ensures Valid() && nextId == old(nextId)
      ensures users == WithRefreshHash(old(users), userId, Some(refreshTokenHash))
    {
      users := WithRefreshHash(users, userId, Some(refreshTokenHash));
    }

    /** `clearRefreshToken`: sets the column to null; a silent no-op for an unknown key. */
    method ClearRefreshToken(userId: UserId)
      requires Valid()
      modifies this
      ensures Valid() && nextId == old(nextId)
      ensures users == WithRefreshHash(old(users), userId, None)
    {
      users := WithRefreshHash(users, userId, None);
    }

    /** `updatePassword`: NotFound for an unknown key; 'Invalid old password' when the
        old password does not verify against the stored hash; otherwise the password
        column alone becomes a hash of the new password. */
    method UpdatePassword(id: UserId, dto: UpdatePasswordDto) returns (r: Result<(), Failure>)
      requires Valid()
      modifies this
      ensures Valid() && nextId == old(nextId)
      ensures id !in old(users) ==> r == Err(NotFound(id)) && users == old(users)
      ensures id in old(users) && !hasher.matches(dto.oldPassword, old(users)[id].password) ==>
        r == Err(Unauthorized(InvalidOldPassword)) && users == old(users)
      ensures id in old(users) && hasher.matches(dto.oldPassword, old(users)[id].password) ==>
        && r == Ok(()) && id in users
        && users == old(users)[id := old(users)[id].(password := users[id].password)]
        && hasher.matches(dto.newPassword, users[id].password)
        && (hasher.matches(dto.oldPassword, users[id].password) <==>
              Bcrypt.Key(dto.oldPassword) == Bcrypt.Key(dto.newPassword))
    {
      var found := FindOne(id);
      if found.Err? {
        return Err(found.error);
      }
      if !hasher.matches(dto.oldPassword, found.value.password) {
        return Err(Unauthorized(InvalidOldPassword));
      }
      var hashed := Bcrypt.Hash(hasher, dto.newPassword);
      users := users[id := users[id].(password := hashed)];
      r := Ok(());
    }

    /** `remove`: NotFound for an unknown key; otherwise exactly that row is deleted. */
    method Remove(id: UserId) returns (r: Result<(), Failure>)
      requires Valid()
      modifies this
      ensures Valid() && nextId == old(nextId)
      ensures id !in old(users) ==> r == Err(NotFound(id)) && users == old(users)
      ensures id in old(users) ==> r == Ok(()) && users == old(users) - {id}
    {
      var found := FindOne(id);
      if found.Err? {
        return Err(found.error);
      }
      users := users - {id};
      r := Ok(());
    }
  }
}
