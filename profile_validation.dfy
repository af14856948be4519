/**
 * The input schemas of the profile actions, as the issue lists their zod
 * parse reports: every field's checks run, in schema order, and the
 * object-level refinement runs after them.
 */
module ProfileValidation {

  /** The input fields the schemas check; an issue's `path`. */
  datatype Field = FirstName | LastName | CurrentPassword | NewPassword | ConfirmPassword

  /** One zod issue, on the field `path`. */
  datatype Issue =
    | TooSmall(path: Field, minimum: nat, message: string)
    | TooBig(path: Field, maximum: nat)
    | Custom(path: Field, message: string)

  const FirstNameRequired := "Le prénom est requis"
  const LastNameRequired := "Le nom est requis"
  const CurrentPasswordRequired := "Le mot de passe actuel est requis"
  const NewPasswordTooShort := "Le nouveau mot de passe doit contenir au moins 8 caractères"
  const ConfirmationRequired := "La confirmation du mot de passe est requise"
  const PasswordsDiffer := "Les mots de passe ne correspondent pas"

  /** `z.string().min(minimum, message)` and, when given, `.max(maximum)` on field `path`. */
  function LengthIssues(path: Field, value: string, minimum: nat, message: string, maximum: nat, bounded: bool): (issues: seq<Issue>)
    ensures issues == [] <==> minimum <= |value| && (bounded ==> |value| <= maximum)
    ensures TooSmall(path, minimum, message) in issues <==> |value| < minimum
    ensures TooBig(path, maximum) in issues <==> bounded && |value| > maximum
    ensures forall i :: 0 <= i < |issues| ==> issues[i].path == path && !issues[i].Custom?
  {
    (if |value| < minimum then [TooSmall(path, minimum, message)] else [])
      + (if bounded && |value| > maximum then [TooBig(path, maximum)] else [])
  }

  /** `updateProfileSchema`: first and last name of 1 to 32 characters. */
  function ValidateProfile(firstName: string, lastName: string): (issues: seq<Issue>)
    ensures issues == [] <==> 1 <= |firstName| <= 32 && 1 <= |lastName| <= 32
    ensures TooSmall(FirstName, 1, FirstNameRequired) in issues <==> firstName == ""
    ensures TooSmall(LastName, 1, LastNameRequired) in issues <==> lastName == ""
    ensures TooBig(FirstName, 32) in issues <==> |firstName| > 32
    ensures TooBig(LastName, 32) in issues <==> |lastName| > 32
  {
    LengthIssues(FirstName, firstName, 1, FirstNameRequired, 32, true)
      + LengthIssues(LastName, lastName, 1, LastNameRequired, 32, true)
  }

  /** `changePasswordSchema`: three length checks, then the refinement that the new password is confirmed. */
  function ValidateChangePassword(currentPassword: string, newPassword: string, confirmPassword: string): (issues: seq<Issue>)
    ensures issues == [] <==>
      && |currentPassword| >= 1
      && 8 <= |newPassword| <= 32
      && |confirmPassword| >= 1
      && newPassword == confirmPassword
    ensures Custom(ConfirmPassword, PasswordsDiffer) in issues <==> newPassword != confirmPassword
  {
    var current := LengthIssues(CurrentPassword, currentPassword, 1, CurrentPasswordRequired, 0, false);
    var chosen := LengthIssues(NewPassword, newPassword, 8, NewPasswordTooShort, 32, true);
    var confirm := LengthIssues(ConfirmPassword, confirmPassword, 1, ConfirmationRequired, 0, false);
    var refinement := if newPassword != confirmPassword then [Custom(ConfirmPassword, PasswordsDiffer)] else [];
    RefinementOnlyCustom(current, chosen, confirm, refinement);
    current + chosen + confirm + refinement
  }

  /** The only custom issue of the change-password parse is the refinement's. */
  lemma RefinementOnlyCustom(a: seq<Issue>, b: seq<Issue>, c: seq<Issue>, refinement: seq<Issue>)
    requires forall i :: 0 <= i < |a| ==> !a[i].Custom?
    requires forall i :: 0 <= i < |b| ==> !b[i].Custom?
    requires forall i :: 0 <= i < |c| ==> !c[i].Custom?
    ensures forall t: Issue :: t.Custom? ==> (t in a + b + c + refinement <==> t in refinement)
  {
  }

  /** Each length rule of the password schema reports its own issue exactly when it is broken. */
  lemma ChangePasswordFieldIssues(currentPassword: string, newPassword: string, confirmPassword: string)
    ensures var issues := ValidateChangePassword(currentPassword, newPassword, confirmPassword);
      && (TooSmall(CurrentPassword, 1, CurrentPasswordRequired) in issues <==> currentPassword == "")
      && (TooSmall(NewPassword, 8, NewPasswordTooShort) in issues <==> |newPassword| < 8)
      && (TooBig(NewPassword, 32) in issues <==> |newPassword| > 32)
      && (TooSmall(ConfirmPassword, 1, ConfirmationRequired) in issues <==> confirmPassword == "")
  {
    FieldIssue(TooSmall(CurrentPassword, 1, CurrentPasswordRequired), currentPassword, newPassword, confirmPassword);
    FieldIssue(TooSmall(NewPassword, 8, NewPasswordTooShort), currentPassword, newPassword, confirmPassword);
    FieldIssue(TooBig(NewPassword, 32), currentPassword, newPassword, confirmPassword);
    FieldIssue(TooSmall(ConfirmPassword, 1, ConfirmationRequired), currentPassword, newPassword, confirmPassword);
  }

  /** A length issue of the change-password parse comes from the checks of its own field. */
  lemma FieldIssue(t: Issue, currentPassword: string, newPassword: string, confirmPassword: string)
    requires !t.Custom?
    ensures t in ValidateChangePassword(currentPassword, newPassword, confirmPassword) <==>
      || (t.path == CurrentPassword && t in LengthIssues(CurrentPassword, currentPassword, 1, CurrentPasswordRequired, 0, false))
      || (t.path == NewPassword && t in LengthIssues(NewPassword, newPassword, 8, NewPasswordTooShort, 32, true))
      || (t.path == ConfirmPassword && t in LengthIssues(ConfirmPassword, confirmPassword, 1, ConfirmationRequired, 0, false))
  {
    var current := LengthIssues(CurrentPassword, currentPassword, 1, CurrentPasswordRequired, 0, false);
    var chosen := LengthIssues(NewPassword, newPassword, 8, NewPasswordTooShort, 32, true);
    var confirm := LengthIssues(ConfirmPassword, confirmPassword, 1, ConfirmationRequired, 0, false);
    var refinement := if newPassword != confirmPassword then [Custom(ConfirmPassword, PasswordsDiffer)] else [];
    assert ValidateChangePassword(currentPassword, newPassword, confirmPassword) == current + chosen + confirm + refinement;
    assert t !in refinement;
    assert t in current ==> t.path == CurrentPassword;
    assert t in chosen ==> t.path == NewPassword;
    assert t in confirm ==> t.path == ConfirmPassword;
  }

  /**
   * The refinement runs even when a length check already failed: a short
   * and unconfirmed new password is reported twice.
   */
  lemma ShortAndUnconfirmedReportedTwice(currentPassword: string, newPassword: string, confirmPassword: string)
    requires |newPassword| < 8 && newPassword != confirmPassword
    ensures var issues := ValidateChangePassword(currentPassword, newPassword, confirmPassword);
      TooSmall(NewPassword, 8, NewPasswordTooShort) in issues && Custom(ConfirmPassword, PasswordsDiffer) in issues
  {
  }
}
