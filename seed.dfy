/** The start-up block of the server that makes sure the two default
    accounts exist: admin@example.com (promoted and re-hashed when it is
    not an admin) and user@example.com (created only when absent). */
module Bootstrap {
  import opened Common
  import opened Users

  /** The state the seed establishes: an admin account under the admin
      email and some account under the demo email. */
  predicate Seeded(users: seq<User>) {
    && FindByEmail(users, AdminEmail).Some?
    && users[FindByEmail(users, AdminEmail).value].role == AdminRole
    && FindByEmail(users, DemoEmail).Some?
  }

  /** Appending a user leaves the first match of every other email where
      it was. */
  lemma FindByEmailAppend(users: seq<User>, u: User, email: string)
    requires u.email != email
    ensures FindByEmail(users + [u], email) == FindByEmail(users, email)
  {
    FindFirstAppend(users, [u], (v: User) => v.email == email);
    assert FindFirst([u], (v: User) => v.email == email).None?;
  }

  /** The admin half: create the admin when absent; promote and re-hash a
      non-admin holder of the admin email; leave an existing admin,
      password included, untouched. */
  method SeedAdmin(table: UserTable, passwordHash: PasswordHash)
    requires table.Valid()
    modifies table
    ensures table.Valid()
    ensures
      match FindByEmail(old(table.users), AdminEmail)
      case None =>
        && table.users == old(table.users) + [User(old(table.nextId), AdminEmail, "Admin User", passwordHash, AdminRole)]
        && table.nextId == old(table.nextId) + 1
      case Some(k) =>
        && table.nextId == old(table.nextId)
        && table.users == if old(table.users)[k].role == AdminRole then old(table.users)
                          else old(table.users)[k := old(table.users)[k].(role := AdminRole, passwordHash := passwordHash)]
    ensures FindByEmail(table.users, AdminEmail).Some?
    ensures table.users[FindByEmail(table.users, AdminEmail).value].role == AdminRole
    ensures |old(table.users)| <= |table.users| <= |old(table.users)| + 1
    ensures forall i :: 0 <= i < |old(table.users)| && old(table.users)[i].email != AdminEmail ==>
      table.users[i] == old(table.users)[i]
  {
    var found := FindByEmail(table.users, AdminEmail);
    if found.None? {
      var u := table.Add(AdminEmail, "Admin User", passwordHash, AdminRole);
      FindAfterAppend(old(table.users), u);
    } else if table.users[found.value].role != AdminRole {
      var k := found.value;
      table.users := table.users[k := table.users[k].(role := AdminRole, passwordHash := passwordHash)];
      FindAfterUpdate(old(table.users), k, table.users[k]);
    }
  }

  /** The demo half: create user@example.com with role `user` only when
      absent; an existing record is never modified. */
  method SeedDemoUser(table: UserTable, passwordHash: PasswordHash)
    requires table.Valid()
    modifies table
    ensures table.Valid()
    ensures
      match FindByEmail(old(table.users), DemoEmail)
      case None =>
        && table.users == old(table.users) + [User(old(table.nextId), DemoEmail, "Demo User", passwordHash, UserRole)]
        && table.nextId == old(table.nextId) + 1
      case Some(_) =>
        table.users == old(table.users) && table.nextId == old(table.nextId)
    ensures FindByEmail(table.users, DemoEmail).Some?
    ensures |old(table.users)| <= |table.users| <= |old(table.users)| + 1
    ensures table.users[..|old(table.users)|] == old(table.users)
    ensures FindByEmail(table.users, AdminEmail) == FindByEmail(old(table.users), AdminEmail)
  {
    var found := FindByEmail(table.users, DemoEmail);
    if found.None? {
      var u := table.Add(DemoEmail, "Demo User", passwordHash, UserRole);
      FindAfterAppend(old(table.users), u);
      FindByEmailAppend(old(table.users), u, AdminEmail);
      assert table.users[..|old(table.users)|] == old(table.users);
    }
  }

  /** The whole seed with one hash of `password`. Afterwards the table is
      seeded, and a seeded table is left exactly as it was: running the
      seed twice gives the table of running it once. Records other than
      the two default accounts are never touched. */
  method SeedDefaultUsers(table: UserTable, salt: nat)
    requires table.Valid()
    modifies table
    ensures table.Valid()
    ensures Seeded(table.users)
    ensures Seeded(old(table.users)) ==> table.users == old(table.users) && table.nextId == old(table.nextId)
    ensures |old(table.users)| <= |table.users| <= |old(table.users)| + 2
    ensures forall i :: 0 <= i < |old(table.users)| && old(table.users)[i].email != AdminEmail ==>
      table.users[i] == old(table.users)[i]
  {
    ghost var before := table.users;
    var passwordHash := Hash(DefaultPassword, salt);
    SeedAdmin(table, passwordHash);
    ghost var afterAdmin := table.users;
    assert Seeded(before) ==> afterAdmin == before;
    SeedDemoUser(table, passwordHash);
    assert forall i :: 0 <= i < |afterAdmin| ==> table.users[i] == table.users[..|afterAdmin|][i];
  }
}
