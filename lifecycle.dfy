/**
 * The caller's view of a SoftAP controller: a history of completed `start`
 * and `stop` calls, and whether the AP counts as started after them.
 */
module Lifecycle {

  datatype Completed = StartSucceeded | StartFailed | Stopped

  /** `isSoftapStarted()` after a history that began with the AP stopped. */
  function StartedAfter(h: seq<Completed>): bool {
    if h == [] then false
    else match h[|h| - 1]
      case StartSucceeded => true
      case StartFailed => StartedAfter(h[..|h| - 1])
      case Stopped => false
  }

  /** One more completed call: a success starts, a stop stops, a failed start changes nothing. */
  lemma StartedAfterSnoc(h: seq<Completed>, c: Completed)
    ensures StartedAfter(h + [c]) == (c == StartSucceeded || (c == StartFailed && StartedAfter(h)))
  {
    assert (h + [c])[..|h|] == h;
  }

  /** Some start succeeded and no stop completed after it. */
  ghost predicate StartedSinceLastStop(h: seq<Completed>) {
    exists i :: 0 <= i < |h| && h[i] == StartSucceeded && forall j :: i < j < |h| ==> h[j] != Stopped
  }

  /** The AP is started exactly when the last successful start has not been followed by a stop. */
  lemma {:induction false} StartedAfterIff(h: seq<Completed>)
    ensures StartedAfter(h) <==> StartedSinceLastStop(h)
  {
    if h != [] {
      var n := |h| - 1;
      var p := h[..n];
      StartedAfterIff(p);
      match h[n]
      case StartSucceeded =>
        assert h[n] == StartSucceeded;
      case Stopped =>
        // a start before position n would have to outlive the stop at n
        assert h[n] == Stopped;
      case StartFailed =>
        if StartedSinceLastStop(h) {
          var i :| 0 <= i < |h| && h[i] == StartSucceeded && forall j :: i < j < |h| ==> h[j] != Stopped;
          assert i < n && p[i] == StartSucceeded;
          assert forall j :: i < j < |p| ==> p[j] == h[j];
        }
        if StartedSinceLastStop(p) {
          var i :| 0 <= i < |p| && p[i] == StartSucceeded && forall j :: i < j < |p| ==> p[j] != Stopped;
          assert h[i] == StartSucceeded;
          assert forall j :: i < j < |h| ==> h[j] != Stopped;
        }
    }
  }
}
