/**
 * The signed-in user's profile actions: renaming and changing the password.
 * The action wrapper parses the input with the action's schema before the
 * handler runs and supplies `ctx.userId`; bcrypt's compare and hash are the
 * parameters `matches` and `hash`.
 */
module ProfileActions {
  import opened Wrappers
  import opened UserTable
  import opened ProfileValidation

  const ProfileUpdateFailed := "Une erreur est survenue lors de la mise à jour du profil"
  const UserNotFound := "Utilisateur non trouvé"
  const WrongPassword := "Le mot de passe actuel est incorrect"
  const PasswordChanged := "Mot de passe changé avec succès"

  /** What `updateProfile` selects from the updated row: never the password. */
  datatype PublicUser = PublicUser(id: string, email: string, firstName: string, lastName: string)

  datatype ProfileResult =
    | ProfileInvalid(issues: seq<Issue>)
    | ProfileUpdated(user: PublicUser)
    | ProfileServerError(message: string)

  /** The user `userId` with the new names: the only change the update makes. */
  function Renamed(users: seq<User>, i: nat, firstName: string, lastName: string): (r: seq<User>)
    requires i < |users|
    ensures |r| == |users|
    ensures r[i] == users[i].(firstName := firstName, lastName := lastName)
    ensures forall k :: 0 <= k < |users| && k != i ==> r[k] == users[k]
  {
    users[i := users[i].(firstName := firstName, lastName := lastName)]
  }

  /**
   * `updateProfile`: rename the user `userId`. An update that finds no such
   * row, or any other failure of the store (`storeFails`), is caught and
   * reported as a server error.
   */
  method UpdateProfile(store: UserStore, userId: string, firstName: string, lastName: string, storeFails: bool)
    returns (r: ProfileResult)
    requires store.Valid()
    modifies store
    ensures store.Valid()
    ensures r.ProfileInvalid? <==> ValidateProfile(firstName, lastName) != []
    ensures r.ProfileInvalid? ==> r.issues == ValidateProfile(firstName, lastName)
    ensures r.ProfileServerError? <==>
      ValidateProfile(firstName, lastName) == [] && (storeFails || IndexOfId(old(store.users), userId).None?)
    ensures r.ProfileServerError? ==> r.message == ProfileUpdateFailed
    ensures !r.ProfileUpdated? ==> store.users == old(store.users)
    ensures r.ProfileUpdated? ==>
      var i := IndexOfId(old(store.users), userId).value;
      && store.users == Renamed(old(store.users), i, firstName, lastName)
      && r.user == PublicUser(userId, old(store.users)[i].email, firstName, lastName)
  {
    var issues := ValidateProfile(firstName, lastName);
    if issues != [] {
      return ProfileInvalid(issues);
    }
    var found := IndexOfId(store.users, userId);
    if storeFails || found.None? {
      return ProfileServerError(ProfileUpdateFailed);
    }
    var i := found.value;
    UpdateKeepsUnique(store.users, i, store.users[i].(firstName := firstName, lastName := lastName));
    store.users := Renamed(store.users, i, firstName, lastName);
    var u := store.users[i];
    r := ProfileUpdated(PublicUser(u.id, u.email, u.firstName, u.lastName));
  }

  datatype PasswordResult =
    | PasswordInvalid(issues: seq<Issue>)
    | PasswordUpdated(message: string)
    | PasswordRefused(error: string)

  /**
   * `changePassword`: check the current password of the user `userId`
   * against the stored hash, then store the hash of the new one.
   */
  method ChangePassword(store: UserStore, userId: string, currentPassword: string, newPassword: string,
                        confirmPassword: string, matches: (string, string) -> bool, hash: string -> string)
    returns (r: PasswordResult)
    requires store.Valid()
    modifies store
    ensures store.Valid()
    ensures r.PasswordInvalid? <==> ValidateChangePassword(currentPassword, newPassword, confirmPassword) != []
    ensures r.PasswordInvalid? ==> r.issues == ValidateChangePassword(currentPassword, newPassword, confirmPassword)
    ensures !r.PasswordInvalid? && IndexOfId(old(store.users), userId).None? ==> r == PasswordRefused(UserNotFound)
    ensures !r.PasswordInvalid? && IndexOfId(old(store.users), userId).Some? ==>
      var u := old(store.users)[IndexOfId(old(store.users), userId).value];
      r == (if matches(currentPassword, u.password) then PasswordUpdated(PasswordChanged) else PasswordRefused(WrongPassword))
    ensures !r.PasswordUpdated? ==> store.users == old(store.users)
    ensures r.PasswordUpdated? ==>
      var i := IndexOfId(old(store.users), userId).value;
      store.users == old(store.users)[i := old(store.users)[i].(password := hash(newPassword))]
  {
    var issues := ValidateChangePassword(currentPassword, newPassword, confirmPassword);
    if issues != [] {
      return PasswordInvalid(issues);
    }
    var found := IndexOfId(store.users, userId);
    if found.None? {
      return PasswordRefused(UserNotFound);
    }
    var i := found.value;
    var isPasswordValid := matches(currentPassword, store.users[i].password);
    if !isPasswordValid {
      return PasswordRefused(WrongPassword);
    }
    var hashedPassword := hash(newPassword);
    UpdateKeepsUnique(store.users, i, store.users[i].(password := hashedPassword));
    store.users := store.users[i := store.users[i].(password := hashedPassword)];
    r := PasswordUpdated(PasswordChanged);
  }
}
