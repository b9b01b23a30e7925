/** The events that flow through the streaming conformance checker. */
module Events {
  import opened Wrappers

  /** `sequence` numbers the events globally; only events to be scored carry a model version. */
  datatype ProcessEvent = ProcessEvent(case_: string, activity: string, sequence: nat, modelVersion: Option<nat>)

  function Activities(events: seq<ProcessEvent>): (r: seq<string>)
    ensures |r| == |events| && forall i | 0 <= i < |r| :: r[i] == events[i].activity
  {
    seq(|events|, i requires 0 <= i < |events| => events[i].activity)
  }
}
