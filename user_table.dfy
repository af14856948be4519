/**
 * The `User` table as the profile, sign-up and provisioning code sees it:
 * a sequence of records in which ids and emails are unique, as the
 * database's unique constraints keep them.
 */
module UserTable {
  import opened Wrappers

  datatype Role = USER | ADMIN

  datatype User = User(id: string, email: string, password: string, firstName: string, lastName: string, role: Role)

  ghost predicate UniqueIds(users: seq<User>)
  {
    forall i, j :: 0 <= i < j < |users| ==> users[i].id != users[j].id
  }

  ghost predicate UniqueEmails(users: seq<User>)
  {
    forall i, j :: 0 <= i < j < |users| ==> users[i].email != users[j].email
  }

  /** Changing a row's other columns keeps ids and emails unique. */
  lemma UpdateKeepsUnique(users: seq<User>, i: nat, u: User)
    requires UniqueIds(users) && UniqueEmails(users)
    requires i < |users| && u.id == users[i].id && u.email == users[i].email
    ensures UniqueIds(users[i := u]) && UniqueEmails(users[i := u])
  {
    var after := users[i := u];
    assert forall k :: 0 <= k < |users| ==> after[k].id == users[k].id && after[k].email == users[k].email;
  }

  /** `findUnique({ where: { email } })`: the position of the user with that email. */
  function IndexOfEmail(users: seq<User>, email: string): (r: Option<nat>)
    ensures r.None? <==> forall i :: 0 <= i < |users| ==> users[i].email != email
    ensures r.Some? ==> r.value < |users| && users[r.value].email == email
    ensures r.Some? ==> forall i :: 0 <= i < r.value ==> users[i].email != email
  {
    if users == [] then None
    else if users[0].email == email then Some(0)
    else match IndexOfEmail(users[1..], email)
      case None => None
      case Some(k) => Some(k + 1)
  }

  /** `findUnique({ where: { id } })`: the position of the user with that id. */
  function IndexOfId(users: seq<User>, id: string): (r: Option<nat>)
    ensures r.None? <==> forall i :: 0 <= i < |users| ==> users[i].id != id
    ensures r.Some? ==> r.value < |users| && users[r.value].id == id
  {
    if users == [] then None
    else if users[0].id == id then Some(0)
    else match IndexOfId(users[1..], id)
      case None => None
      case Some(k) => Some(k + 1)
  }

  /** In a table with unique emails, the user found by email is the only one with it. */
  lemma IndexOfEmailUnique(users: seq<User>, email: string, i: nat)
    requires UniqueEmails(users)
    requires i < |users| && users[i].email == email
    ensures IndexOfEmail(users, email) == Some(i)
  {
  }

  function MaxIdLength(users: seq<User>): (n: nat)
    ensures forall i :: 0 <= i < |users| ==> |users[i].id| <= n
  {
    if users == [] then 0
    else
      var rest := MaxIdLength(users[1..]);
      if |users[0].id| > rest then |users[0].id| else rest
  }

  /** The id the database generates for a new row: one no current row has. */
  function FreshId(users: seq<User>): (id: string)
    ensures forall i :: 0 <= i < |users| ==> users[i].id != id
  {
    seq(MaxIdLength(users) + 1, _ => 'c')
  }

  class UserStore {
    var users: seq<User>

    ghost predicate Valid()
      reads this
    {
      UniqueIds(users) && UniqueEmails(users)
    }

    constructor(initial: seq<User>)
      requires UniqueIds(initial) && UniqueEmails(initial)
      ensures Valid() && users == initial
    {
      users := initial;
    }
  }
}
