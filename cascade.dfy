/**
 * The common shape of the typed validation cascades: an ordered list of
 * checks, each with the message it reports, in which the first failing check
 * decides the outcome and an all-passing list leaves the control valid with
 * an empty message.
 */
module Cascade {

  /** The result of a validation pass: valid, or invalid with a status message. */
  datatype Verdict = Pass | Fail(message: string)
  {
    /** The `statusMessage` a verdict leaves on the control. */
    function StatusMessage(): string
    {
      if Pass? then "" else message
    }
  }

  datatype Check = Check(passes: bool, message: string)

  /** The verdict of an ordered check list: its first failure, if any. */
  function FirstFailure(checks: seq<Check>): Verdict
  {
    if checks == [] then Pass
    else if !checks[0].passes then Fail(checks[0].message)
    else FirstFailure(checks[1..])
  }

  /** The list passes exactly when every check passes, and it fails with the
      message of a check exactly when that check is the first to fail. */
  lemma {:induction false} FirstFailureIsFirst(checks: seq<Check>)
    ensures FirstFailure(checks).Pass? <==> forall i :: 0 <= i < |checks| ==> checks[i].passes
    ensures FirstFailure(checks).Fail? ==>
      exists k :: 0 <= k < |checks| && !checks[k].passes
        && FirstFailure(checks).message == checks[k].message
        && forall i :: 0 <= i < k ==> checks[i].passes
  {
    if checks != [] && checks[0].passes {
      FirstFailureIsFirst(checks[1..]);
      assert forall i :: 1 <= i < |checks| ==> checks[i] == checks[1..][i - 1];
      if FirstFailure(checks).Fail? {
        var k :| 0 <= k < |checks[1..]| && !checks[1..][k].passes
          && FirstFailure(checks[1..]).message == checks[1..][k].message
          && forall i :: 0 <= i < k ==> checks[1..][i].passes;
        assert !checks[k + 1].passes;
      }
    } else if checks != [] {
      assert !checks[0].passes;
    }
  }

  /** When check `k` is the first to fail, its message is the verdict. */
  lemma {:induction false} FirstFailureAt(checks: seq<Check>, k: nat)
    requires k < |checks| && !checks[k].passes
    requires forall i :: 0 <= i < k ==> checks[i].passes
    ensures FirstFailure(checks) == Fail(checks[k].message)
  {
    if k > 0 {
      assert checks[0].passes;
      FirstFailureAt(checks[1..], k - 1);
    }
  }

  /** Checks after the first failure are never consulted. */
  lemma {:induction false} LaterChecksIgnored(checks: seq<Check>, k: nat, later: seq<Check>)
    requires k < |checks| && !checks[k].passes
    requires |later| == |checks| - k - 1
    ensures FirstFailure(checks) == FirstFailure(checks[..k + 1] + later)
  {
    var other := checks[..k + 1] + later;
    var j :| 0 <= j <= k && !checks[j].passes && forall i :: 0 <= i < j ==> checks[i].passes by {
      FirstFailureExists(checks, k);
    }
    FirstFailureAt(checks, j);
    assert forall i :: 0 <= i <= k ==> other[i] == checks[i];
    FirstFailureAt(other, j);
  }

  /** Some check is the first failure whenever some check fails. */
  lemma {:induction false} FirstFailureExists(checks: seq<Check>, k: nat)
    requires k < |checks| && !checks[k].passes
    ensures exists j :: 0 <= j <= k && !checks[j].passes && forall i :: 0 <= i < j ==> checks[i].passes
  {
    if !forall i :: 0 <= i < k ==> checks[i].passes {
      var i :| 0 <= i < k && !checks[i].passes;
      FirstFailureExists(checks, i);
    }
  }
}
