/**
 * The sign-up action and the session lookup of the authentication actions.
 * Input validation by the sign-up schema happens in the action wrapper
 * before the handler runs; bcrypt's hash is the parameter `hash`.
 */
module AuthActions {
  import opened Wrappers
  import opened UserTable

  const EmailInUse := "Cet email est déjà utilisé"
  const InvalidInput := "Données d'entrée invalides"
  const SignUpFailed := "Une erreur est survenue lors de l'inscription"

  /** An error thrown while hashing or creating the row: a validation error of zod, or anything else. */
  datatype Thrown = ZodError | OtherError

  datatype RegisterResult = Registered(userId: string) | RegisterFailed(error: string)

  /**
   * The `registerUser` handler: refuse a taken email, otherwise store the
   * user with the hashed password and the table's default role.
   */
  method RegisterUser(store: UserStore, email: string, password: string, firstName: string, lastName: string,
                      hash: string -> string, thrown: Option<Thrown>)
    returns (r: RegisterResult)
    requires store.Valid()
    modifies store
    ensures store.Valid()
    ensures IndexOfEmail(old(store.users), email).Some? ==>
      r == RegisterFailed(EmailInUse) && store.users == old(store.users)
    ensures IndexOfEmail(old(store.users), email).None? && thrown.Some? ==>
      r == RegisterFailed(if thrown.value == ZodError then InvalidInput else SignUpFailed)
      && store.users == old(store.users)
    ensures r.Registered? <==> IndexOfEmail(old(store.users), email).None? && thrown.None?
    ensures r.Registered? ==>
      && (forall i :: 0 <= i < |old(store.users)| ==> old(store.users)[i].id != r.userId)
      && store.users == old(store.users) + [User(r.userId, email, hash(password), firstName, lastName, USER)]
  {
    var existing := IndexOfEmail(store.users, email);
    if existing.Some? {
      return RegisterFailed(EmailInUse);
    }
    if thrown.Some? {
      return RegisterFailed(if thrown.value == ZodError then InvalidInput else SignUpFailed);
    }
    var hashedPassword := hash(password);
    var id := FreshId(store.users);
    store.users := store.users + [User(id, email, hashedPassword, firstName, lastName, USER)];
    r := Registered(id);
  }

  /** A row appended by a successful registration makes the same email taken. */
  lemma RegisteredEmailTaken(users: seq<User>, user: User)
    ensures IndexOfEmail(users + [user], user.email).Some?
  {
    assert (users + [user])[|users|].email == user.email;
  }

  /** What `getUserInfo` selects: everything but the password. */
  datatype UserInfo = UserInfo(id: string, email: string, firstName: string, lastName: string, role: Role)

  /** `getUserInfo()`; `session` is the signed-in user's email, `None` without a session. */
  method GetUserInfo(store: UserStore, session: Option<string>) returns (info: Option<UserInfo>)
    ensures info.None? <==> session.None? || IndexOfEmail(store.users, session.value).None?
    ensures info.Some? ==>
      exists i :: 0 <= i < |store.users| && store.users[i].email == session.value
        && info.value == UserInfo(store.users[i].id, store.users[i].email, store.users[i].firstName,
                                  store.users[i].lastName, store.users[i].role)
  {
    if session.None? {
      return None;
    }
    var found := IndexOfEmail(store.users, session.value);
    if found.None? {
      return None;
    }
    var u := store.users[found.value];
    info := Some(UserInfo(u.id, u.email, u.firstName, u.lastName, u.role));
  }
}
