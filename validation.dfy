/** What a form handler does when its button is pressed: it either shows one
    error alert and stops, or goes on to its action (a navigation or a sign-up
    call) with some parameters. The handlers are ladders of guard checks,
    run in order, where the first failing check alone decides the message. */
module Validation {

  datatype Outcome =
    | Error(message: string)
    | Proceed(action: string, params: map<string, string>)

  /** One rung of a ladder: whether the check fails, and the message it shows if so. */
  datatype Check = Check(failed: bool, message: string)

  /** The outcome of running the checks in order: the message of the first
      failing check, or success when none fails. This is the reference
      meaning against which each screen's handler is proved. */
  function Decide(checks: seq<Check>, success: Outcome): (r: Outcome)
    requires success.Proceed?
    ensures r.Proceed? <==> forall k :: 0 <= k < |checks| ==> !checks[k].failed
    ensures r.Proceed? ==> r == success
    ensures r.Error? ==> exists k :: 0 <= k < |checks| && checks[k].failed &&
                                     r.message == checks[k].message &&
                                     forall j :: 0 <= j < k ==> !checks[j].failed
  {
    if checks == [] then success
    else if checks[0].failed then Error(checks[0].message)
    else
      var r := Decide(checks[1..], success);
      assert forall k :: 1 <= k < |checks| ==> checks[k] == checks[1..][k - 1];
      r
  }

  /** The first failing check determines the outcome, whatever the later checks say. */
  lemma FirstFailureWins(checks: seq<Check>, success: Outcome, k: nat)
    requires success.Proceed?
    requires k < |checks| && checks[k].failed
    requires forall j :: 0 <= j < k ==> !checks[j].failed
    ensures Decide(checks, success) == Error(checks[k].message)
  {
    var r := Decide(checks, success);
    var i :| 0 <= i < |checks| && checks[i].failed && r.message == checks[i].message &&
             forall j :: 0 <= j < i ==> !checks[j].failed;
    assert i == k;
  }
}
