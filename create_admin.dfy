/**
 * The provisioning script that makes sure the administrator account
 * admin@example.com exists and has the ADMIN role.
 */
module CreateAdmin {
  import opened Wrappers
  import opened UserTable

  const AdminEmail := "admin@example.com"
  const AdminPassword := "Admin123!"
  const AdminFirstName := "Admin"
  const AdminLastName := "User"

  /**
   * The table after the script: an existing account is promoted to ADMIN
   * (or left alone when it already is one), a missing one is created with
   * the hashed password `hashed`.
   */
  function Provisioned(users: seq<User>, hashed: string): seq<User>
  {
    match IndexOfEmail(users, AdminEmail)
    case Some(i) =>
      if users[i].role != ADMIN then users[i := users[i].(role := ADMIN)] else users
    case None =>
      users + [User(FreshId(users), AdminEmail, hashed, AdminFirstName, AdminLastName, ADMIN)]
  }

  /** `main()`: look the account up, then promote it or create it. */
  method ProvisionAdmin(store: UserStore, hash: string -> string)
    requires store.Valid()
    modifies store
    ensures store.Valid()
    ensures store.users == Provisioned(old(store.users), hash(AdminPassword))
  {
    var existing := IndexOfEmail(store.users, AdminEmail);
    if existing.Some? {
      var i := existing.value;
      if store.users[i].role != ADMIN {
        store.users := store.users[i := store.users[i].(role := ADMIN)];
      }
      return;
    }
    var hashedPassword := hash(AdminPassword);
    var id := FreshId(store.users);
    store.users := store.users + [User(id, AdminEmail, hashedPassword, AdminFirstName, AdminLastName, ADMIN)];
  }

  /** Afterwards exactly one account has the administrator email, and it has the ADMIN role. */
  lemma ProvisionedSingleAdmin(users: seq<User>, hashed: string)
    requires UniqueEmails(users)
    ensures var after := Provisioned(users, hashed);
      && UniqueEmails(after)
      && (exists i :: 0 <= i < |after| && after[i].email == AdminEmail && after[i].role == ADMIN)
  {
    var after := Provisioned(users, hashed);
    match IndexOfEmail(users, AdminEmail)
    case Some(i) =>
      assert after[i].email == AdminEmail && after[i].role == ADMIN;
    case None =>
      assert after[|users|].email == AdminEmail && after[|users|].role == ADMIN;
  }

  /**
   * No other account is touched: every other row keeps its place and
   * content, the administrator's row changes at most its role, and at most
   * one row is added, at the end.
   */
  lemma ProvisionedTouchesOnlyAdmin(users: seq<User>, hashed: string)
    requires UniqueEmails(users)
    ensures var after := Provisioned(users, hashed);
      && |users| <= |after| <= |users| + 1
      && (forall i :: 0 <= i < |users| && users[i].email != AdminEmail ==> after[i] == users[i])
      && (forall i :: 0 <= i < |users| && users[i].email == AdminEmail ==> after[i] == users[i].(role := ADMIN))
  {
    var after := Provisioned(users, hashed);
    match IndexOfEmail(users, AdminEmail)
    case Some(j) =>
      assert users[j].role == ADMIN ==> users[j].(role := ADMIN) == users[j];
    case None =>
  }

  /** Rewriting a row without changing its email does not move the first row with a given email. */
  lemma {:induction false} IndexOfEmailAfterUpdate(users: seq<User>, i: nat, u: User, email: string)
    requires i < |users| && u.email == users[i].email
    ensures IndexOfEmail(users[i := u], email) == IndexOfEmail(users, email)
  {
    if i > 0 {
      assert users[i := u][1..] == users[1..][i - 1 := u];
      IndexOfEmailAfterUpdate(users[1..], i - 1, u, email);
    }
  }

  /** Running the script a second time changes nothing, whatever the second hash. */
  lemma ProvisionedIdempotent(users: seq<User>, hashed: string, hashedAgain: string)
    ensures Provisioned(Provisioned(users, hashed), hashedAgain) == Provisioned(users, hashed)
  {
    var after := Provisioned(users, hashed);
    match IndexOfEmail(users, AdminEmail)
    case Some(i) =>
      IndexOfEmailAfterUpdate(users, i, users[i].(role := ADMIN), AdminEmail);
    case None =>
      assert after[|users|].email == AdminEmail;
      assert IndexOfEmail(after, AdminEmail) == Some(|users|);
  }

  /** The script keeps ids and emails unique. */
  lemma ProvisionedKeepsTableValid(users: seq<User>, hashed: string)
    requires UniqueIds(users) && UniqueEmails(users)
    ensures UniqueIds(Provisioned(users, hashed)) && UniqueEmails(Provisioned(users, hashed))
  {
    ProvisionedSingleAdmin(users, hashed);
  }
}
