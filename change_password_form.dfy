/**
 * The password form of the profile page: the checks it makes before
 * calling the `changePassword` action, the arguments it sends, and the
 * notification it shows for the action's answer.
 */
module ChangePasswordForm {
  import opened Wrappers
  import opened Feedback
  import opened ProfileValidation
  import ProfileActions

  const SamePassword := "Le nouveau mot de passe ne peut pas être identique au mot de passe actuel."
  const Mismatch := "Les mots de passe ne correspondent pas."
  const Updated := "Mot de passe mis à jour avec succès !"
  const UpdateFailed := "Une erreur est survenue lors de la mise à jour du mot de passe."
  const TryAgain := "Une erreur est survenue. Veuillez réessayer."

  /**
   * The action's answer as the client receives it: the handler's
   * `success` flag when `data` is present, and the message of a
   * `serverError` object when there is one.
   */
  datatype ActionResult = ActionResult(success: Option<bool>, serverError: Option<string>)

  /** What `await changePassword(...)` gives: a result (possibly `undefined`), or a thrown error. */
  datatype Reply = Returned(result: Option<ActionResult>) | Threw

  datatype PasswordInput = PasswordInput(currentPassword: string, newPassword: string, confirmPassword: string)

  /** The toast `handleSubmit` shows for the action's answer. */
  function ReplyToast(reply: Reply): (t: Toast)
    ensures t.Success? <==> reply.Returned? && reply.result.Some? && reply.result.value.success == Some(true)
    ensures t.Success? ==> t.message == Updated
    ensures reply.Threw? ==> t == Failure(TryAgain)
    ensures t.Failure? && reply.Returned? && reply.result.Some? && reply.result.value.serverError.Some? ==>
      t.message == (if reply.result.value.serverError.value != "" then reply.result.value.serverError.value else UpdateFailed)
    ensures t.Failure? && reply.Returned? && (reply.result.None? || reply.result.value.serverError.None?) ==>
      t.message == UpdateFailed
    ensures t.message != ""
  {
    match reply
    case Threw => Failure(TryAgain)
    case Returned(result) =>
      if result.Some? && result.value.success == Some(true) then Success(Updated)
      else if result.Some? && result.value.serverError.Some? then
        Failure(if result.value.serverError.value != "" then result.value.serverError.value else UpdateFailed)
      else Failure(UpdateFailed)
  }

  /**
   * How the action wrapper hands the handler's outcome to the client: a
   * returned object becomes `data`, a schema failure carries neither
   * `data` nor `serverError`.
   */
  function Envelope(r: ProfileActions.PasswordResult): (a: ActionResult)
    ensures a.serverError.None?
    ensures a.success == Some(true) <==> r.PasswordUpdated?
  {
    match r
    case PasswordInvalid(_) => ActionResult(None, None)
    case PasswordUpdated(_) => ActionResult(Some(true), None)
    case PasswordRefused(_) => ActionResult(Some(false), None)
  }

  class PasswordForm {
    var isLoading: bool

    constructor()
      ensures !isLoading
    {
      isLoading := false;
    }

    /**
     * `handleSubmit` with the three fields of the form and the action's
     * answer; `sent` is the argument passed to `changePassword`, `None`
     * when the form stops before calling it.
     */
    method HandleSubmit(lastPassword: string, newPassword: string, confirmPassword: string, reply: Reply)
      returns (sent: Option<PasswordInput>, toast: Toast)
      modifies this
      ensures !isLoading
      ensures lastPassword == newPassword ==> sent.None? && toast == Failure(SamePassword)
      ensures lastPassword != newPassword && newPassword != confirmPassword ==> sent.None? && toast == Failure(Mismatch)
      ensures sent.Some? <==> lastPassword != newPassword && newPassword == confirmPassword
      ensures sent.Some? ==> sent.value == PasswordInput(lastPassword, newPassword, newPassword)
      ensures sent.Some? ==> toast == ReplyToast(reply)
    {
      isLoading := true;
      if lastPassword == newPassword {
        toast := Failure(SamePassword);
        isLoading := false;
        return None, toast;
      }
      if newPassword != confirmPassword {
        toast := Failure(Mismatch);
        isLoading := false;
        return None, toast;
      }
      sent := Some(PasswordInput(lastPassword, newPassword, newPassword));
      toast := ReplyToast(reply);
      isLoading := false;
    }
  }

  /**
   * What the form sends always passes the server's confirmation rule, and
   * the server's schema accepts it exactly when the current password is
   * non-empty and the new one has 8 to 32 characters.
   */
  lemma SentInputPassesRefinement(lastPassword: string, newPassword: string)
    ensures var issues := ValidateChangePassword(lastPassword, newPassword, newPassword);
      && Custom(ConfirmPassword, PasswordsDiffer) !in issues
      && (issues == [] <==> |lastPassword| >= 1 && 8 <= |newPassword| <= 32)
  {
  }

  /**
   * When the server refuses (unknown user, wrong current password), the
   * form shows its generic message, not the server's reason.
   */
  lemma RefusalShowsGenericMessage(error: string)
    ensures ReplyToast(Returned(Some(Envelope(ProfileActions.PasswordRefused(error))))) == Failure(UpdateFailed)
  {
  }
}
