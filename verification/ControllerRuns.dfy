/** The imperative controllers over whole runs: reconciling one event after the other is a run, so
    that whatever is proved of runs holds of the reconcilers. */
module ControllerRuns {
  import opened ExperimentModel
  import opened TopologyModel
  import opened ExperimentRuns
  import opened RepetitionResults
  import opened Controllers

  method ReconcileAll(experiment: ExperimentReconciler, topology: TopologyReconciler, events: seq<Event>)
    requires experiment.api == topology.api
    requires ValidSpec(experiment.spec) && ValidStatus(experiment.spec, experiment.api.status)
    modifies experiment.api
    ensures experiment.api.Cluster() == Run(experiment.spec, topology.spec, old(experiment.api.Cluster()), events)
  {
    hide ExperimentStep, TopologyStep, ValidSpec;
    var api := experiment.api;
    ghost var w := api.Cluster();
    var i := 0;
    while i < |events|
      invariant 0 <= i <= |events|
      invariant ValidStatus(experiment.spec, api.status)
      invariant api.Cluster() == Run(experiment.spec, topology.spec, w, events[..i])
    {
      assert events[..i + 1][..i] == events[..i];
      match events[i] {
        case ExperimentReconcile(input) => experiment.Reconcile(input);
        case TopologyReconcile(input) =>
          TopologyStepKeeps(topology.spec, api.Cluster(), input);
          topology.Reconcile(input);
      }
      i := i + 1;
    }
    assert events[..i] == events;
  }

  /** Both controllers on a cluster of their own; from a fresh experiment on, the results ConfigMap
      is ordered and complete whatever fails on the way. */
  method RunControllers(spec: Spec, tspec: TopologySpec, w: World, events: seq<Event>) returns (w': World)
    requires ValidSpec(spec) && ValidStatus(spec, w.status)
    ensures w' == Run(spec, tspec, w, events)
    ensures Fresh(w) ==> Ordered(w'.results) && forall n: nat | 1 <= n <= w'.status.completed :: Appears(w'.results, n)
  {
    hide Run, Ordered, Appears, ValidSpec;
    var api := new ApiServer(w);
    var experiment := new ExperimentReconciler(spec, api);
    var topology := new TopologyReconciler(tspec, api);
    ReconcileAll(experiment, topology, events);
    w' := api.Cluster();
    if Fresh(w) {
      ResultsUnderRetries(spec, tspec, w, events);
    }
  }
}
