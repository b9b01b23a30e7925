/** Discovery windows, model versions, and which model scores which event. */
module Windows {
  import opened Wrappers
  import opened Events
  import opened PrefixAlignment
  import opened LossyCounting
  import opened DirectlyFollows
  import opened Sorting
  import opened Conformance
  import opened ConformanceRuns

  const DISCOVERY_WINDOW_SIZE: nat := 200

  /** The parsed stream: the event at position i has sequence number i and no model version. */
  ghost predicate IsStream(stream: seq<ProcessEvent>) {
    forall i | 0 <= i < |stream| :: stream[i].sequence == i && stream[i].modelVersion.None?
  }

  /** The side output for conformance checking; the first window's events get none. */
  function ConformanceEvent(e: ProcessEvent): Option<ProcessEvent> {
    var modelVersion := e.sequence / DISCOVERY_WINDOW_SIZE;
    if modelVersion > 0 then Some(e.(modelVersion := Some(modelVersion))) else None
  }

  /** An event is to be scored if and only if it is not among the first 200; it then carries the number of
      200-event blocks before its own, and is otherwise unchanged. */
  lemma SplitIff(e: ProcessEvent)
    ensures ConformanceEvent(e).Some? <==> e.sequence >= 200
    ensures ConformanceEvent(e).Some? ==>
              var scored := ConformanceEvent(e).value;
              && scored.(modelVersion := e.modelVersion) == e && scored.modelVersion.Some?
              && 200 * scored.modelVersion.value <= e.sequence < 200 * (scored.modelVersion.value + 1)
  {}

  /** The events that survive lossy counting in one window. */
  ghost function KeptEvents(window: seq<ProcessEvent>, maxApproxError: real): seq<ProcessEvent>
    requires 0.0 < maxApproxError <= 1.0
  {
    WidthPositive(maxApproxError);
    KeepActivities(window, Retained(Activities(window), Ceiling(1.0 / maxApproxError)))
  }

  /** What is kept of a window, with the width that the error stands for. */
  lemma KeptAreFrequent(window: seq<ProcessEvent>, maxApproxError: real) returns (width: nat)
    requires 0.0 < maxApproxError <= 1.0
    ensures 1.0 / maxApproxError <= width as real < 1.0 / maxApproxError + 1.0
    ensures width > 0 && KeepsFrequent(window, width, KeptEvents(window, maxApproxError))
  {
    hide KeepsFrequent, KeepActivities, Retained;
    WidthPositive(maxApproxError);
    width := Ceiling(1.0 / maxApproxError);
    RetainedKeepFrequent(window, width);
  }

  lemma WidthPositive(maxApproxError: real)
    requires 0.0 < maxApproxError <= 1.0
    ensures Ceiling(1.0 / maxApproxError) >= 1
  {
    assert 1.0 / maxApproxError >= 1.0;
  }

  type Miner = DirectlyFollowsData -> Model

  function Numbered(events: seq<ProcessEvent>): seq<Keyed<ProcessEvent>> {
    seq(|events|, i requires 0 <= i < |events| => (events[i].sequence, events[i]))
  }

  function WithoutNumbers(numbered: seq<Keyed<ProcessEvent>>): (r: seq<ProcessEvent>)
    ensures |r| == |numbered|
  {
    seq(|numbered|, i requires 0 <= i < |numbered| => numbered[i].1)
  }

  /** The events sorted by sequence number. */
  function SortEvents(events: seq<ProcessEvent>): seq<ProcessEvent> {
    WithoutNumbers(SortByNumber(Numbered(events)))
  }

  /** The model update of a completed window, whatever the order of its events; none where no event
      survives the filter. */
  ghost function WindowUpdate(window: seq<ProcessEvent>, maxApproxError: real, mine: Miner): Option<(nat, Model)>
    requires 0.0 < maxApproxError <= 1.0 && window != []
  {
    SortKeepsSize(window);
    var events := SortEvents(window);
    var kept := KeptEvents(events, maxApproxError);
    if kept == [] then None else
      Some((events[|events| - 1].sequence / DISCOVERY_WINDOW_SIZE + 1, mine(DataOf(kept))))
  }

  lemma SortKeepsSize(events: seq<ProcessEvent>)
    ensures |SortEvents(events)| == |events|
  {
    SortSorts(Numbered(events));
    SameSize(SortByNumber(Numbered(events)), Numbered(events));
  }

  /** Sort, filter, count, mine and number one window. */
  method DiscoverModelFromWindow(window: seq<ProcessEvent>, maxApproxError: real, mine: Miner)
    returns (update: Option<(nat, Model)>)
    requires 0.0 < maxApproxError <= 1.0 && window != []
    ensures update == WindowUpdate(window, maxApproxError, mine)
  {
    hide SortEvents, KeepsFrequent, KeepActivities, Retained, DataOf, Ceiling;
    SortKeepsSize(window);
    var events := SortEvents(window);
    var kept := FilterDiscoveryEvents(events, maxApproxError);
    if kept == [] {
      return None;
    }
    var data := CreateDirectlyFollowsData(kept);
    var version := events[|events| - 1].sequence / DISCOVERY_WINDOW_SIZE + 1;
    update := Some((version, mine(data)));
  }

  lemma {:induction false} NumberedCount(events: seq<ProcessEvent>, x: Keyed<ProcessEvent>)
    ensures multiset(Numbered(events))[x] == if x.0 == x.1.sequence then multiset(events)[x.1] else 0
  {
    if events == [] {
      assert Numbered(events) == [];
    } else {
      var front, e := events[..|events| - 1], events[|events| - 1];
      NumberedCount(front, x);
      assert events == front + [e] && Numbered(events) == Numbered(front) + [(e.sequence, e)];
    }
  }

  /** Sorting restores a block of the stream from any permutation of it. */
  lemma SortRestores(block: seq<ProcessEvent>, window: seq<ProcessEvent>)
    requires multiset(window) == multiset(block)
    requires forall i, j | 0 <= i < j < |block| :: block[i].sequence < block[j].sequence
    ensures SortEvents(window) == block
  {
    forall x ensures multiset(Numbered(window))[x] == multiset(Numbered(block))[x] {
      NumberedCount(window, x);
      NumberedCount(block, x);
    }
    assert multiset(Numbered(window)) == multiset(Numbered(block));
    SortSorts(Numbered(window));
    SortedUnique(SortByNumber(Numbered(window)), Numbered(block));
    assert WithoutNumbers(Numbered(block)) == block;
  }

  /** The j-th count window: a consecutive block of the stream. */
  function Window(stream: seq<ProcessEvent>, j: nat): seq<ProcessEvent>
    requires DISCOVERY_WINDOW_SIZE * (j + 1) <= |stream|
  {
    stream[DISCOVERY_WINDOW_SIZE * j..DISCOVERY_WINDOW_SIZE * (j + 1)]
  }

  /** The update of the j-th window, whose events may have reached the operator in any order. */
  ghost predicate IsUpdateOf(stream: seq<ProcessEvent>, maxApproxError: real, mine: Miner, j: nat,
                             version: nat, model: Model)
    requires 0.0 < maxApproxError <= 1.0
  {
    && DISCOVERY_WINDOW_SIZE * (j + 1) <= |stream|
    && exists window :: IsPermutation(window, Window(stream, j))
                        && WindowUpdate(window, maxApproxError, mine) == Some((version, model))
  }

  ghost predicate IsPermutation(window: seq<ProcessEvent>, block: seq<ProcessEvent>)
    ensures IsPermutation(window, block) && block != [] ==> window != []
  {
    multiset(window) == multiset(block) && |window| == |block|
  }

  ghost predicate IsConformanceEventOf(stream: seq<ProcessEvent>, e: ProcessEvent) {
    exists i | 0 <= i < |stream| :: ConformanceEvent(stream[i]) == Some(e)
  }

  /** A run of one shard inside the pipeline: every broadcast is the update of a completed window,
      delivered once, and every event came through the splitter. Order and delays are arbitrary. */
  ghost predicate PipelineRun(stream: seq<ProcessEvent>, maxApproxError: real, mine: Miner, steps: seq<Step>)
    requires 0.0 < maxApproxError <= 1.0
  {
    && IsStream(stream)
    && (forall k | 0 <= k < |steps| && steps[k].Publish? ::
          exists j: nat :: IsUpdateOf(stream, maxApproxError, mine, j, steps[k].version, steps[k].model))
    && (forall k, l | 0 <= k < l < |steps| && steps[k].Publish? && steps[l].Publish? :: steps[k] != steps[l])
    && (forall k | 0 <= k < |steps| && steps[k].Arrive? :: IsConformanceEventOf(stream, steps[k].event))
  }

  /** Whatever the order in which its events arrive, block j yields a model update exactly if lossy counting
      keeps an event of it; the update is numbered j + 1 and mined from exactly the events kept. */
  lemma BlockUpdate(stream: seq<ProcessEvent>, maxApproxError: real, mine: Miner, j: nat, window: seq<ProcessEvent>)
    requires 0.0 < maxApproxError <= 1.0 && IsStream(stream) && DISCOVERY_WINDOW_SIZE * (j + 1) <= |stream|
    requires IsPermutation(window, Window(stream, j))
    ensures var kept := KeptEvents(Window(stream, j), maxApproxError);
            WindowUpdate(window, maxApproxError, mine) == if kept == [] then None else Some((j + 1, mine(DataOf(kept))))
  {
    hide SortEvents, KeptEvents, DataOf;
    var block := Window(stream, j);
    SortRestores(block, window);
    var last := DISCOVERY_WINDOW_SIZE * (j + 1) - 1;
    assert block[|block| - 1] == stream[last];
    assert last / DISCOVERY_WINDOW_SIZE == j;
  }

  /** So the updates are determined by the blocks of the stream. */
  lemma WindowVersion(stream: seq<ProcessEvent>, maxApproxError: real, mine: Miner, j: nat, version: nat, model: Model)
    requires 0.0 < maxApproxError <= 1.0 && IsStream(stream) && DISCOVERY_WINDOW_SIZE * (j + 1) <= |stream|
    ensures var kept := KeptEvents(Window(stream, j), maxApproxError);
            IsUpdateOf(stream, maxApproxError, mine, j, version, model) <==>
              version == j + 1 && kept != [] && model == mine(DataOf(kept))
  {
    hide SortEvents, KeptEvents, DataOf, WindowUpdate;
    forall window | IsPermutation(window, Window(stream, j))
      ensures var kept := KeptEvents(Window(stream, j), maxApproxError);
              WindowUpdate(window, maxApproxError, mine) ==
                if kept == [] then None else Some((j + 1, mine(DataOf(kept))))
    {
      BlockUpdate(stream, maxApproxError, mine, j, window);
    }
    assert IsPermutation(Window(stream, j), Window(stream, j));
  }

  /** Hence no version is ever published twice. */
  lemma PipelinePublishesOnce(stream: seq<ProcessEvent>, maxApproxError: real, mine: Miner, steps: seq<Step>)
    requires 0.0 < maxApproxError <= 1.0 && PipelineRun(stream, maxApproxError, mine, steps)
    ensures PublishedOnce(steps)
  {
    forall k, l | 0 <= k < l < |steps| && steps[k].Publish? && steps[l].Publish?
      ensures steps[k].version != steps[l].version
    {
      var j: nat :| IsUpdateOf(stream, maxApproxError, mine, j, steps[k].version, steps[k].model);
      var j': nat :| IsUpdateOf(stream, maxApproxError, mine, j', steps[l].version, steps[l].model);
      WindowVersion(stream, maxApproxError, mine, j, steps[k].version, steps[k].model);
      WindowVersion(stream, maxApproxError, mine, j', steps[l].version, steps[l].model);
    }
  }

  lemma {:induction false} ArrivalsHaveArrived(steps: seq<Step>, c: string, e: ProcessEvent)
    requires e in ArrivalsOf(steps, c)
    ensures Arrive(e) in steps
  {
    if steps != [] {
      var n := |steps| - 1;
      if e in ArrivalsOf(steps[..n], c) {
        ArrivalsHaveArrived(steps[..n], c, e);
      } else {
        assert steps[n] == Arrive(e);
      }
    }
  }

  /** The events numbered 200 * (s / 200 - 1) up to, but excluding, 200 * (s / 200). */
  function PreviousBlock(stream: seq<ProcessEvent>, s: nat): seq<ProcessEvent>
    requires DISCOVERY_WINDOW_SIZE <= s < |stream|
  {
    var v := s / DISCOVERY_WINDOW_SIZE;
    stream[DISCOVERY_WINDOW_SIZE * (v - 1)..DISCOVERY_WINDOW_SIZE * v]
  }

  /** The score belongs to event s and aligns its case under the model mined from exactly the
      block of events before the one that s is in. */
  ghost predicate PairedWithPreviousBlock(stream: seq<ProcessEvent>, maxApproxError: real, mine: Miner,
                                          arrivals: seq<ProcessEvent>, i: nat, score: Score)
    requires 0.0 < maxApproxError <= 1.0 && i < |arrivals|
  {
    var s := arrivals[i].sequence;
    && DISCOVERY_WINDOW_SIZE <= s < |stream|
    && var kept := KeptEvents(PreviousBlock(stream, s), maxApproxError);
       && kept != []
       && score.event == s
       && score.score == OptimalCost(mine(DataOf(kept)), Activities(arrivals[..i + 1]))
  }

  /** Models never look ahead, and no event of the first block is scored. */
  lemma NoLookAhead(stream: seq<ProcessEvent>, maxApproxError: real, mine: Miner, steps: seq<Step>, c: string, i: nat)
    requires 0.0 < maxApproxError <= 1.0 && PipelineRun(stream, maxApproxError, mine, steps)
    requires i < |RunScores(steps, c)|
    ensures |RunScores(steps, c)| <= |ArrivalsOf(steps, c)|
    ensures PairedWithPreviousBlock(stream, maxApproxError, mine, ArrivalsOf(steps, c), i, RunScores(steps, c)[i])
  {
    hide Run, RunScores, ArrivalsOf, KeptEvents, DataOf;
    PipelinePublishesOnce(stream, maxApproxError, mine, steps);
    RunScoresMean(steps, c, i);
    var e, models := ArrivalsOf(steps, c)[i], Run(steps).models;
    ArrivalsHaveArrived(steps, c, e);
    var at :| 0 <= at < |steps| && steps[at] == Arrive(e);
    var p :| 0 <= p < |stream| && ConformanceEvent(stream[p]) == Some(e);
    var v := e.modelVersion.value;
    ModelsArePublished(steps, v);
    var k := LastPublished(steps, v);
    var j: nat :| IsUpdateOf(stream, maxApproxError, mine, j, v, models[v]);
    WindowVersion(stream, maxApproxError, mine, j, v, models[v]);
    assert Window(stream, j) == PreviousBlock(stream, e.sequence);
  }
}
