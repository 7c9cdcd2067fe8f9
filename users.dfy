/** The user collection and the account routes of the backend:
    `/register`, `/login`, `/debug`, `/reset-password` and `/setup-accounts`.
    bcrypt and JWT signing are opaque here: a hash remembers the password it
    was made from, and a login token is the record of the claims signed. */
module Users {
  import opened Common

  /** A bcrypt hash. `salt` stands for bcrypt's random salt, so two hashes
      of one password differ while both compare equal to it. */
  datatype PasswordHash = Bcrypt(secret: string, salt: nat)

  function Hash(password: string, salt: nat): PasswordHash {
    Bcrypt(password, salt)
  }

  /** `bcrypt.compare(password, hash)`. */
  predicate Compare(password: string, h: PasswordHash) {
    h.secret == password
  }

  /** A stored user. An absent name is the empty string. */
  datatype User = User(id: UserId, email: string, name: string, passwordHash: PasswordHash, role: Role)

  /** A user as the API shows it: every field but the password hash. */
  datatype UserView = UserView(id: UserId, email: string, name: string, role: Role)

  function View(u: User): UserView {
    UserView(u.id, u.email, u.name, u.role)
  }

  /** jsonwebtoken's `expiresIn: '7d'`, in seconds. */
  const TokenLifetime: int := 7 * 24 * 60 * 60

  /** The claims a login token carries: `{ id, email, role }` plus the
      issue and expiry times that `jwt.sign` adds (seconds). */
  datatype Claims = Claims(id: UserId, email: string, role: Role, issuedAt: Time, expiresAt: Time)

  datatype Session = Session(token: Claims, user: UserView)

  datatype ResetReply = ResetReply(message: string, email: string, role: Role)

  datatype DebugReply = DebugReply(count: nat, emails: seq<string>)

  const MissingCredentials := "Email and password required"
  const InvalidCredentials := "Invalid email or password"

  /** `User.findOne({ email })`: exact, case-sensitive email match. */
  function FindByEmail(users: seq<User>, email: string): (r: Option<nat>)
    ensures r.Some? ==> r.value < |users| && users[r.value].email == email
    ensures r.Some? ==> forall j :: 0 <= j < r.value ==> users[j].email != email
    ensures r.None? <==> forall j :: 0 <= j < |users| ==> users[j].email != email
  {
    FindFirst(users, (u: User) => u.email == email)
  }

  /** `User.findById(id)`. */
  function FindById(users: seq<User>, id: UserId): (r: Option<nat>)
    ensures r.Some? ==> r.value < |users| && users[r.value].id == id
    ensures r.None? <==> forall j :: 0 <= j < |users| ==> users[j].id != id
  {
    FindFirst(users, (u: User) => u.id == id)
  }

  /** The role named in a request body, when it is one of the two the
      routes accept (`['user', 'admin'].includes(role)`). */
  function RequestedRole(role: string): (r: Option<Role>)
    ensures r.Some? <==> role in ["user", "admin"]
    ensures r == Some(AdminRole) <==> role == "admin"
  {
    if role == "user" then Some(UserRole)
    else if role == "admin" then Some(AdminRole)
    else None
  }

  /** The table invariant every route keeps: emails and ids are unique and
      every id was handed out before. */
  predicate WellFormed(users: seq<User>, nextId: nat) {
    && (forall i, j :: 0 <= i < j < |users| ==> users[i].email != users[j].email)
    && (forall i, j :: 0 <= i < j < |users| ==> users[i].id != users[j].id)
    && (forall i :: 0 <= i < |users| ==> users[i].id < nextId)
  }

  /** POST /login. The same 401 answers an unknown email and a wrong
      password; a success signs the stored id, email and role for seven
      days from `now` (seconds). */
  function Login(users: seq<User>, email: string, password: string, now: Time): (r: Response<Session>)
    ensures email == "" || password == "" ==> r == Failure(400, MissingCredentials)
    ensures r.Failure? && email != "" && password != "" ==> r == Failure(401, InvalidCredentials)
    ensures r.Success? <==>
      && email != "" && password != ""
      && FindByEmail(users, email).Some?
      && Compare(password, users[FindByEmail(users, email).value].passwordHash)
    ensures r.Success? ==>
      var u := users[FindByEmail(users, email).value];
      && r.status == 200
      && r.value.token == Claims(u.id, u.email, u.role, now, now + TokenLifetime)
      && r.value.user == View(u)
  {
    if email == "" || password == "" then Failure(400, MissingCredentials)
    else match FindByEmail(users, email)
      case None => Failure(401, InvalidCredentials)
      case Some(k) =>
        if !Compare(password, users[k].passwordHash) then Failure(401, InvalidCredentials)
        else
          var u := users[k];
          Success(200, Session(Claims(u.id, u.email, u.role, now, now + TokenLifetime), View(u)))
  }

  /** GET /debug: the emails of at most the first twenty users, with their
      number. */
  function Debug(users: seq<User>): (r: DebugReply)
    ensures r.count == |r.emails| <= 20
    ensures r.count == Min(20, |users|)
    ensures forall i :: 0 <= i < r.count ==> r.emails[i] == users[i].email
  {
    var shown := users[..Min(20, |users|)];
    DebugReply(|shown|, seq(|shown|, i requires 0 <= i < |shown| => shown[i].email))
  }

  /** A user table in a well-formed state can log in, with exactly its
      password, any account it holds. */
  lemma LoginFindsStoredAccount(users: seq<User>, nextId: nat, k: nat, password: string, now: Time)
    requires WellFormed(users, nextId)
    requires k < |users| && users[k].email != "" && password != ""
    ensures Login(users, users[k].email, password, now).Success? <==> Compare(password, users[k].passwordHash)
    ensures Login(users, users[k].email, password, now).Success? ==>
      Login(users, users[k].email, password, now).value.user == View(users[k])
  {
    var f := FindByEmail(users, users[k].email);
    assert f.Some?;
    assert f.value == k;
  }

  class UserTable {
    var users: seq<User>
    var nextId: nat

    ghost predicate Valid()
      reads this
    {
      WellFormed(users, nextId)
    }

    constructor ()
      ensures Valid() && users == [] && nextId == 0
    {
      users := [];
      nextId := 0;
    }

    /** Store a new user under a fresh id. */
    method Add(email: string, name: string, passwordHash: PasswordHash, role: Role) returns (u: User)
      requires Valid()
      requires FindByEmail(users, email).None?
      modifies this
      ensures Valid()
      ensures u == User(old(nextId), email, name, passwordHash, role)
      ensures users == old(users) + [u] && nextId == old(nextId) + 1
    {
      u := User(nextId, email, name, passwordHash, role);
      users := users + [u];
      nextId := nextId + 1;
    }

    /** POST /register: 400 without email or password, 409 when the exact
        email is taken (table unchanged), otherwise one new `user` whose
        reply leaves out the hash. */
    method Register(email: string, password: string, name: string, salt: nat) returns (r: Response<UserView>)
      requires Valid()
      modifies this
      ensures Valid()
      ensures email == "" || password == "" ==>
        r == Failure(400, MissingCredentials) && users == old(users) && nextId == old(nextId)
      ensures email != "" && password != "" && FindByEmail(old(users), email).Some? ==>
        r == Failure(409, "User already exists") && users == old(users) && nextId == old(nextId)
      ensures email != "" && password != "" && FindByEmail(old(users), email).None? ==>
        var u := User(old(nextId), email, name, Hash(password, salt), UserRole);
        && users == old(users) + [u] && nextId == old(nextId) + 1
        && r == Success(201, View(u))
    {
      if email == "" || password == "" {
        return Failure(400, MissingCredentials);
      }
      var existing := FindByEmail(users, email);
      if existing.Some? {
        return Failure(409, "User already exists");
      }
      var passwordHash := Hash(password, salt);
      var u := Add(email, name, passwordHash, UserRole);
      r := Success(201, View(u));
    }

    /** POST /reset-password: an existing user always gets the new hash and
        takes the requested role only when it is `user` or `admin`; an
        absent one is created with that role, or `user`. */
    method ResetPassword(email: string, password: string, role: string, salt: nat) returns (r: Response<ResetReply>)
      requires Valid()
      modifies this
      ensures Valid()
      ensures email == "" || password == "" ==>
        r == Failure(400, MissingCredentials) && users == old(users) && nextId == old(nextId)
      ensures email != "" && password != "" && FindByEmail(old(users), email).Some? ==>
        var k := FindByEmail(old(users), email).value;
        var before := old(users)[k];
        var newRole := if RequestedRole(role).Some? then RequestedRole(role).value else before.role;
        && users == old(users)[k := before.(passwordHash := Hash(password, salt), role := newRole)]
        && nextId == old(nextId)
        && r == Success(200, ResetReply("Password updated", email, newRole))
      ensures email != "" && password != "" && FindByEmail(old(users), email).None? ==>
        var newRole := if RequestedRole(role).Some? then RequestedRole(role).value else UserRole;
        && users == old(users) + [User(old(nextId), email, "", Hash(password, salt), newRole)]
        && nextId == old(nextId) + 1
        && r == Success(201, ResetReply("User created", email, newRole))
    {
      if email == "" || password == "" {
        return Failure(400, MissingCredentials);
      }
      var found := FindByEmail(users, email);
      var passwordHash := Hash(password, salt);
      if found.Some? {
        var k := found.value;
        var u := users[k];
        u := u.(passwordHash := passwordHash);
        var requested := RequestedRole(role);
        if requested.Some? {
          u := u.(role := requested.value);
        }
        users := users[k := u];
        return Success(200, ResetReply("Password updated", u.email, u.role));
      }
      var newRole := if RequestedRole(role).Some? then RequestedRole(role).value else UserRole;
      var u := Add(email, "", passwordHash, newRole);
      r := Success(201, ResetReply("User created", u.email, u.role));
    }

    /** POST /setup-accounts: with type `admin` or no type, admin@example.com
        ends up present with role `admin` and the hash of `password`; any
        other type changes nothing. The reply is the same either way. */
    method SetupAccounts(accountType: string, salt: nat) returns (r: Response<string>)
      requires Valid()
      modifies this
      ensures Valid()
      ensures r == Success(200, "Accounts setup complete")
      ensures accountType != "admin" && accountType != "" ==> users == old(users) && nextId == old(nextId)
      ensures accountType == "admin" || accountType == "" ==>
        && FindByEmail(users, AdminEmail).Some?
        && users[FindByEmail(users, AdminEmail).value].role == AdminRole
        && users[FindByEmail(users, AdminEmail).value].passwordHash == Hash(DefaultPassword, salt)
      ensures accountType == "admin" || accountType == "" ==>
        match FindByEmail(old(users), AdminEmail)
        case Some(k) =>
          && users == old(users)[k := old(users)[k].(passwordHash := Hash(DefaultPassword, salt), role := AdminRole)]
          && nextId == old(nextId)
        case None =>
          && users == old(users) + [User(old(nextId), AdminEmail, "Admin User", Hash(DefaultPassword, salt), AdminRole)]
          && nextId == old(nextId) + 1
    {
      var passwordHash := Hash(DefaultPassword, salt);
      if accountType == "admin" || accountType == "" {
        var found := FindByEmail(users, AdminEmail);
        if found.Some? {
          var k := found.value;
          users := users[k := users[k].(passwordHash := passwordHash, role := AdminRole)];
          FindAfterUpdate(old(users), k, users[k]);
        } else {
          var u := Add(AdminEmail, "Admin User", passwordHash, AdminRole);
          FindAfterAppend(old(users), u);
        }
      }
      r := Success(200, "Accounts setup complete");
    }
  }

  const AdminEmail := "admin@example.com"
  const DemoEmail := "user@example.com"
  const DefaultPassword := "password"

  /** Rewriting a record without changing its email keeps it the first
      match for that email. */
  lemma FindAfterUpdate(users: seq<User>, k: nat, u: User)
    requires k < |users| && FindByEmail(users, users[k].email) == Some(k) && u.email == users[k].email
    ensures FindByEmail(users[k := u], u.email) == Some(k)
  {
    var s := users[k := u];
    assert forall j :: 0 <= j < k ==> s[j] == users[j];
    FindFirstIs(s, (v: User) => v.email == u.email, k);
  }

  /** A record appended for an email nobody holds is its first match. */
  lemma FindAfterAppend(users: seq<User>, u: User)
    requires FindByEmail(users, u.email).None?
    ensures FindByEmail(users + [u], u.email) == Some(|users|)
  {
    var s := users + [u];
    assert forall j :: 0 <= j < |users| ==> s[j] == users[j];
    FindFirstIs(s, (v: User) => v.email == u.email, |users|);
  }
}
