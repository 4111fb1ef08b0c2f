/** The registration form's `handleRegistration`: four guard checks, in a
    fixed order, before the sign-up call. The sign-up call itself (to the
    authentication provider) is not modelled; its invocation is the
    `signUp` outcome. */
module Registration {
  import opened Validation
  import EmailPattern
  import Text

  const FillAllFields := "Please fill in all fields"
  const PasswordsDoNotMatch := "Passwords do not match"
  const PasswordTooShort := "Password must be at least 8 characters long"
  const InvalidEmail := "Please enter a valid email address"

  const MinPasswordLength := 8

  /** The sign-up call, made with the email as user name and with the password. */
  function SignUp(email: string, password: string): Outcome {
    Proceed("signUp", map["email" := email, "password" := password])
  }

  /** The checks of the form, in the order the handler runs them. */
  function Checks(email: string, password: string, confirmPassword: string): seq<Check> {
    [ Check(email == [] || password == [] || confirmPassword == [], FillAllFields),
      Check(password != confirmPassword, PasswordsDoNotMatch),
      Check(|password| < MinPasswordLength, PasswordTooShort),
      Check(!EmailPattern.Test(email), InvalidEmail) ]
  }

  /** The handler: the first failing check's alert, or the sign-up call.
      Inputs are taken as typed, without trimming. */
  function HandleRegistration(email: string, password: string, confirmPassword: string): (r: Outcome)
    ensures r == Decide(Checks(email, password, confirmPassword), SignUp(email, password))
    ensures r.Proceed? <==> password == confirmPassword && |password| >= MinPasswordLength &&
                            EmailPattern.WellFormedEmail(email)
    ensures r.Proceed? ==> r == SignUp(email, password)
  {
    EmailPattern.TestIsWellFormed(email);
    if email == [] || password == [] || confirmPassword == [] then Error(FillAllFields)
    else if password != confirmPassword then Error(PasswordsDoNotMatch)
    else if |password| < MinPasswordLength then
      FirstFailureWins(Checks(email, password, confirmPassword), SignUp(email, password), 2);
      Error(PasswordTooShort)
    else if !EmailPattern.Test(email) then
      FirstFailureWins(Checks(email, password, confirmPassword), SignUp(email, password), 3);
      Error(InvalidEmail)
    else SignUp(email, password)
  }

  /** An empty field is reported before anything else, and sign-up is not attempted. */
  lemma EmptyFieldReported(email: string, password: string, confirmPassword: string)
    requires email == [] || password == [] || confirmPassword == []
    ensures HandleRegistration(email, password, confirmPassword) == Error(FillAllFields)
  {
  }

  /** With every field filled, differing passwords are reported. */
  lemma MismatchReported(email: string, password: string, confirmPassword: string)
    requires email != [] && password != [] && confirmPassword != []
    requires password != confirmPassword
    ensures HandleRegistration(email, password, confirmPassword) == Error(PasswordsDoNotMatch)
  {
  }

  /** A filled, confirmed password shorter than 8 characters is reported. */
  lemma ShortPasswordReported(email: string, password: string)
    requires email != [] && password != [] && |password| < MinPasswordLength
    ensures HandleRegistration(email, password, password) == Error(PasswordTooShort)
  {
  }

  /** A confirmed password of exactly 8 characters passes the length check:
      the outcome is decided by the email format alone. */
  lemma EightCharactersPassLengthCheck(email: string, password: string)
    requires email != [] && |password| == MinPasswordLength
    ensures HandleRegistration(email, password, password) ==
            if EmailPattern.WellFormedEmail(email) then SignUp(email, password) else Error(InvalidEmail)
  {
    EmailPattern.TestIsWellFormed(email);
  }

  /** Inputs are not trimmed: an email made only of whitespace passes the
      emptiness check and fails the format check. */
  lemma WhitespaceEmailRejected(email: string, password: string)
    requires email != [] && Text.AllWhitespace(email)
    requires |password| >= MinPasswordLength
    ensures HandleRegistration(email, password, password) == Error(InvalidEmail)
  {
    EmailPattern.TestIsWellFormed(email);
    assert Text.IsWhitespace(email[0]);
  }
}
