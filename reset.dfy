/** The reset-password form's `handleResetPassword`: two guard checks, then
    navigation to the login screen. The reset call to the authentication
    provider is not made by this handler. */
module Reset {
  import opened Validation

  const EnterBothFields := "Please enter both fields"
  const PasswordsDoNotMatch := "Passwords do not match"

  const ToLogin := Proceed("Login", map[])

  function Checks(newPassword: string, confirmPassword: string): seq<Check> {
    [ Check(newPassword == [] || confirmPassword == [], EnterBothFields),
      Check(newPassword != confirmPassword, PasswordsDoNotMatch) ]
  }

  /** The handler: the first failing check's alert, or navigation to 'Login'.
      No length or strength rule applies. */
  function HandleResetPassword(newPassword: string, confirmPassword: string): (r: Outcome)
    ensures r == Decide(Checks(newPassword, confirmPassword), ToLogin)
    ensures r.Proceed? <==> newPassword != [] && newPassword == confirmPassword
    ensures r.Proceed? ==> r == ToLogin
  {
    if newPassword == [] || confirmPassword == [] then Error(EnterBothFields)
    else if newPassword != confirmPassword then Error(PasswordsDoNotMatch)
    else ToLogin
  }

  /** Emptiness is checked before equality: two empty fields, or one, report emptiness. */
  lemma EmptyFieldReported(newPassword: string, confirmPassword: string)
    requires newPassword == [] || confirmPassword == []
    ensures HandleResetPassword(newPassword, confirmPassword) == Error(EnterBothFields)
  {
  }

  lemma MismatchReported(newPassword: string, confirmPassword: string)
    requires newPassword != [] && confirmPassword != [] && newPassword != confirmPassword
    ensures HandleResetPassword(newPassword, confirmPassword) == Error(PasswordsDoNotMatch)
  {
  }

  /** Unlike registration, a one-character matching pair is accepted. */
  lemma OneCharacterPasswordAccepted(c: char)
    ensures HandleResetPassword([c], [c]) == ToLogin
  {
  }
}
