/** The forgot-password form's `handleSendCode`: one guard check, then
    navigation to the verification-code screen with the entered values. */
module Forgot {
  import opened Validation
  import Text

  const EnterBoth := "Please enter both username and email"

  function ToVerificationCode(username: string, email: string): Outcome {
    Proceed("VerificationCode", map["username" := username, "email" := email])
  }

  function Checks(username: string, email: string): seq<Check> {
    [ Check(username == [] || email == [], EnterBoth) ]
  }

  /** The handler: the alert when a field is empty, otherwise navigation
      carrying exactly the entered username and email. Values are not trimmed. */
  function HandleSendCode(username: string, email: string): (r: Outcome)
    ensures r == Decide(Checks(username, email), ToVerificationCode(username, email))
    ensures r.Error? <==> username == [] || email == []
    ensures r.Error? ==> r.message == EnterBoth
    ensures r.Proceed? ==> r.action == "VerificationCode" && r.params.Keys == {"username", "email"} &&
                           r.params["username"] == username && r.params["email"] == email
  {
    if username == [] || email == [] then Error(EnterBoth)
    else ToVerificationCode(username, email)
  }

  /** Whitespace-only values are not empty, so they pass the check. */
  lemma WhitespaceInputsAccepted(username: string, email: string)
    requires username != [] && email != []
    requires Text.AllWhitespace(username) && Text.AllWhitespace(email)
    ensures HandleSendCode(username, email).Proceed?
  {
  }
}
