/**
 * The password change on the profile page (src/app/profile/page.tsx):
 * `handleChangePassword` runs its checks in order and stops at the first
 * that fails; only a request passing all of them reaches the auth provider.
 */
module Profile {
  import opened Wrappers
  import opened Text
  import opened Schema

  datatype PasswordChange = PasswordChange(currentPassword: string, newPassword: string, confirmPassword: string)

  /** What the handler ends with: one of the four refusals, an auth failure, or success. */
  datatype ChangeOutcome =
    | MissingField | TooShort | Mismatch | Unchanged
    | WrongCurrentPassword | UpdateFailed(errorMessage: string) | Changed

  const MIN_PASSWORD_LENGTH: nat := 6

  /** The four checks, in order; `None` when all pass. */
  function Refusal(d: PasswordChange): Option<ChangeOutcome> {
    if d.currentPassword == "" || d.newPassword == "" || d.confirmPassword == "" then Some(MissingField)
    else if Utf16Length(d.newPassword) < MIN_PASSWORD_LENGTH then Some(TooShort)
    else if d.newPassword != d.confirmPassword then Some(Mismatch)
    else if d.currentPassword == d.newPassword then Some(Unchanged)
    else None
  }

  /** A request every check accepts. */
  predicate Acceptable(d: PasswordChange) {
    d.currentPassword != "" && d.newPassword != "" && d.confirmPassword != "" &&
    Utf16Length(d.newPassword) >= MIN_PASSWORD_LENGTH &&
    d.newPassword == d.confirmPassword && d.currentPassword != d.newPassword
  }

  predicate ReachesAuth(o: ChangeOutcome) {
    o == WrongCurrentPassword || o.UpdateFailed? || o == Changed
  }

  /**
   * `handleChangePassword`. `signInOk` is whether signing in with the current
   * password succeeds, and `updateError` the message of the error the
   * password update reports, if any; they are consulted only once every
   * check has passed.
   */
  function ChangePassword(d: PasswordChange, signInOk: bool, updateError: Option<string>): (o: ChangeOutcome)
    ensures ReachesAuth(o) <==> Acceptable(d)
    ensures o == Changed <==> Acceptable(d) && signInOk && updateError.None?
    ensures o.UpdateFailed? <==> Acceptable(d) && signInOk && updateError.Some?
    ensures o.UpdateFailed? ==> updateError == Some(o.errorMessage)
  {
    match Refusal(d)
    case Some(refusal) => refusal
    case None =>
      if !signInOk then WrongCurrentPassword
      else if updateError.Some? then UpdateFailed(updateError.value)
      else Changed
  }

  const UPDATE_FAILED_PREFIX: string := "Erreur lors du changement: "

  /** `err.message || 'Erreur inconnue'` */
  function ErrorDetail(errorMessage: string): string {
    if errorMessage == "" then "Erreur inconnue" else errorMessage
  }

  /** The toast each outcome shows. */
  function Message(o: ChangeOutcome): string {
    match o
    case MissingField => "Veuillez remplir tous les champs"
    case TooShort => "Le nouveau mot de passe doit contenir au moins 6 caractères"
    case Mismatch => "Les mots de passe ne correspondent pas"
    case Unchanged => "Le nouveau mot de passe doit être différent de l'ancien"
    case WrongCurrentPassword => "Mot de passe actuel incorrect"
    case UpdateFailed(m) => UPDATE_FAILED_PREFIX + ErrorDetail(m)
    case Changed => "Mot de passe modifié avec succès !"
  }

  /** A refused request ends the same way whatever the auth provider would have answered. */
  lemma RefusalIgnoresAuth(d: PasswordChange, signInOk: bool, updateError: Option<string>,
                           signInOk': bool, updateError': Option<string>)
    requires !Acceptable(d)
    ensures ChangePassword(d, signInOk, updateError) == ChangePassword(d, signInOk', updateError')
  {
  }

  /**
   * Only the first failing check is reported: each refusal holds exactly when
   * its own check fails and all earlier ones pass.
   */
  lemma FirstFailureReported(d: PasswordChange, signInOk: bool, updateError: Option<string>)
    ensures var o := ChangePassword(d, signInOk, updateError);
      var filled := d.currentPassword != "" && d.newPassword != "" && d.confirmPassword != "";
      var longEnough := Utf16Length(d.newPassword) >= MIN_PASSWORD_LENGTH;
      (o == MissingField <==> !filled) &&
      (o == TooShort <==> filled && !longEnough) &&
      (o == Mismatch <==> filled && longEnough && d.newPassword != d.confirmPassword) &&
      (o == Unchanged <==> filled && longEnough && d.newPassword == d.confirmPassword &&
                           d.currentPassword == d.newPassword)
  {
  }

  /**
   * Distinct outcomes show distinct messages, except that two failed updates
   * look alike when their errors show the same detail.
   */
  lemma MessageInjective(a: ChangeOutcome, b: ChangeOutcome)
    ensures Message(a) == Message(b) ==>
      a == b || (a.UpdateFailed? && b.UpdateFailed? && ErrorDetail(a.errorMessage) == ErrorDetail(b.errorMessage))
  {
    if Message(a) == Message(b) {
      if a.UpdateFailed? && b.UpdateFailed? {
        assert Message(a)[|UPDATE_FAILED_PREFIX|..] == ErrorDetail(a.errorMessage);
        assert Message(b)[|UPDATE_FAILED_PREFIX|..] == ErrorDetail(b.errorMessage);
      } else {
        ColonAfterPrefix(a);
        ColonAfterPrefix(b);
      }
    }
  }

  /** Only the message of a failed update has a colon where its prefix ends. */
  lemma ColonAfterPrefix(o: ChangeOutcome)
    ensures |Message(o)| >= |UPDATE_FAILED_PREFIX| && (Message(o)[|UPDATE_FAILED_PREFIX| - 2] == ':' <==> o.UpdateFailed?)
  {
    if o.UpdateFailed? {
      assert Message(o) == UPDATE_FAILED_PREFIX + ErrorDetail(o.errorMessage);
    }
  }

  /** A failed update shows the error's own message, or "Erreur inconnue" when it has none. */
  lemma UpdateFailedShowsError(d: PasswordChange, errorMessage: string)
    requires Acceptable(d)
    ensures var shown := Message(ChangePassword(d, true, Some(errorMessage)));
      |UPDATE_FAILED_PREFIX| <= |shown| && shown[..|UPDATE_FAILED_PREFIX|] == UPDATE_FAILED_PREFIX &&
      (errorMessage != "" ==> shown[|UPDATE_FAILED_PREFIX|..] == errorMessage) &&
      (errorMessage == "" ==> shown[|UPDATE_FAILED_PREFIX|..] == "Erreur inconnue")
  {
    var shown := Message(ChangePassword(d, true, Some(errorMessage)));
    assert shown == UPDATE_FAILED_PREFIX + ErrorDetail(errorMessage);
  }

  /** `canChangePassword`: the stored role is TRUSTED_REPORTER or STATION_MANAGER. */
  function CanChangePassword(role: Option<string>): bool {
    role == Some("TRUSTED_REPORTER") || role == Some("STATION_MANAGER")
  }

  /** Of the four roles, exactly the trusted reporter and the station manager may change their password. */
  lemma CanChangePasswordRoles(role: UserRole)
    ensures CanChangePassword(Some(RoleName(role))) <==> role == TrustedReporter || role == StationManager
  {
  }
}
