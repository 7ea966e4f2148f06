/** A waiting command across the wire: the client's budget against the bridge's own wait. */
module Waits {
  import opened Json
  import Buffers
  import JsonLinesClient
  import SessionTrace
  import WireBinding

  /** The timeout member is sent only when the caller asked for one. */
  function TimeoutParams(requested: real): map<string, Json> {
    if requested > 0.0 then map["timeout" := WireBinding.FloatJson(requested)] else map[]
  }

  /** The bridge's own timeout always fires first: whatever was asked for, its wait is over
      with more than 4.97 seconds of the client's budget left. */
  lemma BridgeTimesOutFirst(requested: real)
    ensures SessionTrace.TimeoutOf(TimeoutParams(requested)).Some?
    ensures Buffers.WaitLength(SessionTrace.TimeoutOf(TimeoutParams(requested)).value) + 4.97
              < JsonLinesClient.WaitBudget(requested)
  {
    Buffers.WaitOvershoots(SessionTrace.TimeoutOf(TimeoutParams(requested)).value);
  }
}
