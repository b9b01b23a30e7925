/** From events to the directly-follows counters that the heuristics miner consumes. */
module DirectlyFollows {
  import opened Events
  import opened Sorting

  type Pair = (string, string)
  /** An activity with its sequence number. */
  type Stamped = Keyed<string>

  /** Python `Counter`s as multisets. */
  datatype Counters = Counters(graph: multiset<Pair>, occurrences: multiset<string>,
                               starts: multiset<string>, ends: multiset<string>)

  /** The counters and the distinct activities, the keys of the occurrence counter. */
  datatype DirectlyFollowsData = DirectlyFollowsData(counters: Counters, activities: set<string>)

  // ---------- the trace of a case ----------

  /** The stamped activities of one case in arrival order. */
  function StampedOf(events: seq<ProcessEvent>, c: string): seq<Stamped> {
    if events == [] then [] else
      var e := events[|events| - 1];
      StampedOf(events[..|events| - 1], c) + (if e.case_ == c then [(e.sequence, e.activity)] else [])
  }

  function Labels(s: seq<Stamped>): (r: seq<string>)
    ensures |r| == |s|
  {
    seq(|s|, i requires 0 <= i < |s| => s[i].1)
  }

  function Trace(events: seq<ProcessEvent>, c: string): seq<string> {
    Labels(SortByNumber(StampedOf(events, c)))
  }

  function Cases(events: seq<ProcessEvent>): set<string> {
    set e | e in events :: e.case_
  }

  // ---------- per-case counters and their sums ----------

  function Pairs(trace: seq<string>): seq<Pair> {
    if |trace| < 2 then [] else
      Pairs(trace[..|trace| - 1]) + [(trace[|trace| - 2], trace[|trace| - 1])]
  }

  function OccurrencesOf(events: seq<ProcessEvent>): string -> multiset<string> {
    c => multiset(Trace(events, c))
  }

  function StartOf(events: seq<ProcessEvent>): string -> multiset<string> {
    c => if Trace(events, c) == [] then multiset{} else multiset{Trace(events, c)[0]}
  }

  function EndOf(events: seq<ProcessEvent>): string -> multiset<string> {
    c => if Trace(events, c) == [] then multiset{} else multiset{Trace(events, c)[|Trace(events, c)| - 1]}
  }

  function PairsOf(events: seq<ProcessEvent>): string -> multiset<Pair> {
    c => multiset(Pairs(Trace(events, c)))
  }

  ghost function SumOver<T>(cases: set<string>, f: string -> multiset<T>): multiset<T> {
    if cases == {} then multiset{} else
      var c :| c in cases;
      f(c) + SumOver(cases - {c}, f)
  }

  lemma {:induction false} SumOverOf<T>(cases: set<string>, f: string -> multiset<T>, c: string)
    requires c in cases
    ensures SumOver(cases, f) == f(c) + SumOver(cases - {c}, f)
    decreases cases
  {
    var b :| b in cases && SumOver(cases, f) == f(b) + SumOver(cases - {b}, f);
    if b != c {
      SumOverOf(cases - {b}, f, c);
      SumOverOf(cases - {c}, f, b);
      assert cases - {b} - {c} == cases - {c} - {b};
    }
  }

  lemma {:induction false} SumOverSame<T>(cases: set<string>, f: string -> multiset<T>, g: string -> multiset<T>)
    requires forall c | c in cases :: f(c) == g(c)
    ensures SumOver(cases, f) == SumOver(cases, g)
    decreases cases
  {
    if c :| c in cases {
      SumOverOf(cases, f, c);
      SumOverOf(cases, g, c);
      SumOverSame(cases - {c}, f, g);
    }
  }

  ghost function CountersOver(events: seq<ProcessEvent>, cases: set<string>): Counters {
    Counters(SumOver(cases, PairsOf(events)), SumOver(cases, OccurrencesOf(events)),
             SumOver(cases, StartOf(events)), SumOver(cases, EndOf(events)))
  }

  /** The counters over all cases. */
  ghost function DataOf(events: seq<ProcessEvent>): DirectlyFollowsData {
    var counters := CountersOver(events, Cases(events));
    DirectlyFollowsData(counters, set a | a in counters.occurrences)
  }

  /** The map holds the stamps of every case of these events. */
  ghost predicate Grouped(events: seq<ProcessEvent>, traces: map<string, seq<Stamped>>) {
    && traces.Keys == Cases(events)
    && forall c :: StampedOf(events, c) == if c in traces then traces[c] else []
  }

  lemma NothingGrouped()
    ensures Grouped([], map[])
  {}

  lemma StampedSnoc(events: seq<ProcessEvent>, e: ProcessEvent, c: string)
    ensures StampedOf(events + [e], c) == StampedOf(events, c) + if e.case_ == c then [(e.sequence, e.activity)] else []
  {
    assert (events + [e])[..|events|] == events;
  }

  lemma CasesSnoc(events: seq<ProcessEvent>, e: ProcessEvent)
    ensures Cases(events + [e]) == Cases(events) + {e.case_}
  {}

  lemma OneMoreGrouped(events: seq<ProcessEvent>, e: ProcessEvent, traces: map<string, seq<Stamped>>)
    requires Grouped(events, traces)
    ensures var trace := if e.case_ in traces then traces[e.case_] else [];
            Grouped(events + [e], traces[e.case_ := trace + [(e.sequence, e.activity)]])
  {
    hide StampedOf, Cases;
    CasesSnoc(events, e);
    var trace := if e.case_ in traces then traces[e.case_] else [];
    var traces' := traces[e.case_ := trace + [(e.sequence, e.activity)]];
    forall c ensures StampedOf(events + [e], c) == if c in traces' then traces'[c] else [] {
      StampedSnoc(events, e, c);
      assert StampedOf(events, c) + [] == StampedOf(events, c);
    }
  }

  method GroupByCase(events: seq<ProcessEvent>) returns (tracesByCase: map<string, seq<Stamped>>)
    ensures tracesByCase.Keys == Cases(events)
    ensures forall c | c in tracesByCase :: tracesByCase[c] == StampedOf(events, c)
  {
    hide Grouped, StampedOf, Cases;
    tracesByCase := map[];
    NothingGrouped();
    assert events[..0] == [];
    var i := 0;
    while i < |events|
      invariant 0 <= i <= |events| && Grouped(events[..i], tracesByCase)
    {
      var e := events[i];
      OneMoreGrouped(events[..i], e, tracesByCase);
      assert events[..i + 1] == events[..i] + [e];
      var trace := if e.case_ in tracesByCase then tracesByCase[e.case_] else [];
      tracesByCase := tracesByCase[e.case_ := trace + [(e.sequence, e.activity)]];
      i := i + 1;
    }
    assert events[..i] == events;
    AllGrouped(events, tracesByCase);
  }

  lemma AllGrouped(events: seq<ProcessEvent>, traces: map<string, seq<Stamped>>)
    requires Grouped(events, traces)
    ensures traces.Keys == Cases(events) && forall c | c in traces :: traces[c] == StampedOf(events, c)
  {}

  /** What is counted so far, plus the cases not yet visited, makes up the whole. */
  ghost predicate Counted<T>(counter: multiset<T>, events: seq<ProcessEvent>, remaining: set<string>,
                             f: string -> multiset<T>)
  {
    counter + SumOver(remaining, f) == SumOver(Cases(events), f)
  }

  lemma CountCase<T>(counter: multiset<T>, events: seq<ProcessEvent>, remaining: set<string>,
                     f: string -> multiset<T>, c: string)
    requires Counted(counter, events, remaining, f) && c in remaining
    ensures Counted(counter + f(c), events, remaining - {c}, f)
  {
    SumOverOf(remaining, f, c);
  }

  /** Groups the events by case, then updates the four counters trace by trace. */
  method CreateDirectlyFollowsData(events: seq<ProcessEvent>) returns (data: DirectlyFollowsData)
    ensures data == DataOf(events)
  {
    hide SumOver, Counted, StampedOf, SortByNumber, Pairs;
    var tracesByCase := GroupByCase(events);
    var graph: multiset<Pair> := multiset{};
    var occurrences, starts, ends: multiset<string> := multiset{}, multiset{}, multiset{};
    var remaining := tracesByCase.Keys;
    NothingCounted(events, PairsOf(events));
    NothingCounted(events, OccurrencesOf(events));
    NothingCounted(events, StartOf(events));
    NothingCounted(events, EndOf(events));
    while remaining != {}
      invariant remaining <= tracesByCase.Keys
      invariant Counted(graph, events, remaining, PairsOf(events))
      invariant Counted(occurrences, events, remaining, OccurrencesOf(events))
      invariant Counted(starts, events, remaining, StartOf(events))
      invariant Counted(ends, events, remaining, EndOf(events))
      decreases remaining
    {
      var c :| c in remaining;
      CountCase(graph, events, remaining, PairsOf(events), c);
      CountCase(occurrences, events, remaining, OccurrencesOf(events), c);
      CountCase(starts, events, remaining, StartOf(events), c);
      CountCase(ends, events, remaining, EndOf(events), c);
      remaining := remaining - {c};
      TraceOfCase(events, c);
      var activitySequence := Labels(SortByNumber(tracesByCase[c]));
      occurrences := occurrences + multiset(activitySequence);
      starts := starts + multiset{activitySequence[0]};
      ends := ends + multiset{activitySequence[|activitySequence| - 1]};
      graph := graph + multiset(Pairs(activitySequence));
    }
    AllCounted(graph, events, PairsOf(events));
    AllCounted(occurrences, events, OccurrencesOf(events));
    AllCounted(starts, events, StartOf(events));
    AllCounted(ends, events, EndOf(events));
    data := DirectlyFollowsData(Counters(graph, occurrences, starts, ends), set a | a in occurrences);
  }

  lemma NothingCounted<T>(events: seq<ProcessEvent>, f: string -> multiset<T>)
    ensures Counted(multiset{}, events, Cases(events), f)
  {}

  lemma AllCounted<T>(counter: multiset<T>, events: seq<ProcessEvent>, f: string -> multiset<T>)
    requires Counted(counter, events, {}, f)
    ensures counter == SumOver(Cases(events), f)
  {}

  // ---------- flow conservation ----------

  /** The pairs that enter, or leave, activity `a`, by their other end. */
  function Into(a: string): string -> Pair {
    x => (x, a)
  }

  function OutOf(a: string): string -> Pair {
    x => (a, x)
  }

  /** The sum of graph counts along `edge` over the activities `xs`: sum of dfg(x, a) for
      `Into(a)`, of dfg(a, x) for `OutOf(a)`. */
  ghost function Flow(xs: set<string>, graph: multiset<Pair>, edge: string -> Pair): nat {
    if xs == {} then 0 else
      var x :| x in xs;
      graph[edge(x)] + Flow(xs - {x}, graph, edge)
  }

  lemma {:induction false} FlowOf(xs: set<string>, g: multiset<Pair>, edge: string -> Pair, x: string)
    requires x in xs
    ensures Flow(xs, g, edge) == g[edge(x)] + Flow(xs - {x}, g, edge)
    decreases xs
  {
    var y :| y in xs && Flow(xs, g, edge) == g[edge(y)] + Flow(xs - {y}, g, edge);
    if x != y {
      FlowOf(xs - {y}, g, edge, x);
      FlowOf(xs - {x}, g, edge, y);
      assert xs - {y} - {x} == xs - {x} - {y};
    }
  }

  lemma {:induction false} FlowAdds(xs: set<string>, g: multiset<Pair>, h: multiset<Pair>, edge: string -> Pair)
    ensures Flow(xs, g + h, edge) == Flow(xs, g, edge) + Flow(xs, h, edge)
    decreases xs
  {
    if x :| x in xs {
      FlowOf(xs, g, edge, x);
      FlowOf(xs, h, edge, x);
      FlowOf(xs, g + h, edge, x);
      FlowAdds(xs - {x}, g, h, edge);
    }
  }

  /** A graph with no edge along `edge` carries no flow; a single pair carries one unit. */
  lemma {:induction false} FlowOfNone(xs: set<string>, g: multiset<Pair>, edge: string -> Pair)
    requires forall x | x in xs :: g[edge(x)] == 0
    ensures Flow(xs, g, edge) == 0
    decreases xs
  {
    if x :| x in xs {
      FlowOf(xs, g, edge, x);
      FlowOfNone(xs - {x}, g, edge);
    }
  }

  lemma FlowOfPair(xs: set<string>, p: Pair, a: string)
    requires p.0 in xs && p.1 in xs
    ensures Flow(xs, multiset{p}, Into(a)) == multiset{p.1}[a]
    ensures Flow(xs, multiset{p}, OutOf(a)) == multiset{p.0}[a]
  {
    FlowOf(xs, multiset{p}, Into(a), p.0);
    FlowOfNone(xs - {p.0}, multiset{p}, Into(a));
    FlowOf(xs, multiset{p}, OutOf(a), p.1);
    FlowOfNone(xs - {p.1}, multiset{p}, OutOf(a));
  }

  /** Conservation at `a`, and the totals, for counters that cover `n` traces. */
  ghost predicate Conserved(xs: set<string>, k: Counters, n: nat, a: string) {
    && k.occurrences[a] == k.starts[a] + Flow(xs, k.graph, Into(a))
    && k.occurrences[a] == k.ends[a] + Flow(xs, k.graph, OutOf(a))
    && |k.starts| == |k.ends| == n
    && |k.graph| + n == |k.occurrences|
  }

  function Plus(k: Counters, k': Counters): Counters {
    Counters(k.graph + k'.graph, k.occurrences + k'.occurrences, k.starts + k'.starts, k.ends + k'.ends)
  }

  lemma ConservedAdds(xs: set<string>, k: Counters, n: nat, k': Counters, n': nat, a: string)
    requires Conserved(xs, k, n, a) && Conserved(xs, k', n', a)
    ensures Conserved(xs, Plus(k, k'), n + n', a)
  {
    FlowAdds(xs, k.graph, k'.graph, Into(a));
    FlowAdds(xs, k.graph, k'.graph, OutOf(a));
  }

  function TraceCounters(trace: seq<string>): Counters
    requires trace != []
  {
    Counters(multiset(Pairs(trace)), multiset(trace), multiset{trace[0]}, multiset{trace[|trace| - 1]})
  }

  /** Along one trace everything but the first activity is entered, and all but the last left. */
  lemma {:induction false} TraceFlow(xs: set<string>, trace: seq<string>, a: string)
    requires trace != [] && forall x | x in trace :: x in xs
    ensures Conserved(xs, TraceCounters(trace), 1, a)
  {
    if |trace| == 1 {
      FlowOfNone(xs, multiset{}, Into(a));
      FlowOfNone(xs, multiset{}, OutOf(a));
      assert trace == [trace[0]];
    } else {
      TraceFlow(xs, trace[..|trace| - 1], a);
      TraceFlowStep(xs, trace, a);
    }
  }

  lemma LastPair(trace: seq<string>)
    requires |trace| >= 2
    ensures var front, p := trace[..|trace| - 1], (trace[|trace| - 2], trace[|trace| - 1]);
            && multiset(trace) == multiset(front) + multiset{p.1}
            && multiset(Pairs(trace)) == multiset(Pairs(front)) + multiset{p}
  {
    assert trace == trace[..|trace| - 1] + [trace[|trace| - 1]];
  }

  lemma TraceFlowStep(xs: set<string>, trace: seq<string>, a: string)
    requires |trace| >= 2 && forall x | x in trace :: x in xs
    requires Conserved(xs, TraceCounters(trace[..|trace| - 1]), 1, a)
    ensures Conserved(xs, TraceCounters(trace), 1, a)
  {
    hide Flow, Into, OutOf, Pairs;
    var front, p := trace[..|trace| - 1], (trace[|trace| - 2], trace[|trace| - 1]);
    LastPair(trace);
    FlowAdds(xs, multiset(Pairs(front)), multiset{p}, Into(a));
    FlowAdds(xs, multiset(Pairs(front)), multiset{p}, OutOf(a));
    FlowOfPair(xs, p, a);
  }

  lemma CountersOverOf(events: seq<ProcessEvent>, cases: set<string>, c: string)
    requires c in cases && Trace(events, c) != []
    ensures CountersOver(events, cases) == Plus(CountersOver(events, cases - {c}), TraceCounters(Trace(events, c)))
  {
    hide SumOver, Trace, Pairs;
    SumOverOf(cases, OccurrencesOf(events), c);
    SumOverOf(cases, StartOf(events), c);
    SumOverOf(cases, EndOf(events), c);
    SumOverOf(cases, PairsOf(events), c);
  }

  lemma {:induction false} SumFlow(events: seq<ProcessEvent>, cases: set<string>, xs: set<string>, a: string)
    requires forall c, x | c in cases && x in Trace(events, c) :: x in xs
    requires forall c | c in cases :: Trace(events, c) != []
    ensures Conserved(xs, CountersOver(events, cases), |cases|, a)
    decreases cases
  {
    if cases == {} {
      FlowOfNone(xs, multiset{}, Into(a));
      FlowOfNone(xs, multiset{}, OutOf(a));
    } else {
      var c :| c in cases;
      SumFlow(events, cases - {c}, xs, a);
      SumFlowStep(events, cases, xs, a, c);
    }
  }

  lemma SumFlowStep(events: seq<ProcessEvent>, cases: set<string>, xs: set<string>, a: string, c: string)
    requires c in cases && Trace(events, c) != [] && forall x | x in Trace(events, c) :: x in xs
    requires Conserved(xs, CountersOver(events, cases - {c}), |cases - {c}|, a)
    ensures Conserved(xs, CountersOver(events, cases), |cases|, a)
  {
    hide CountersOver, TraceCounters, Trace, Conserved;
    TraceFlow(xs, Trace(events, c), a);
    ConservedAdds(xs, CountersOver(events, cases - {c}), |cases - {c}|, TraceCounters(Trace(events, c)), 1, a);
    CountersOverOf(events, cases, c);
    assert |cases| == |cases - {c}| + 1;
  }

  lemma {:induction false} StampedOfCase(events: seq<ProcessEvent>, c: string)
    ensures StampedOf(events, c) != [] <==> c in Cases(events)
  {
    if events != [] {
      StampedOfCase(events[..|events| - 1], c);
      assert events == events[..|events| - 1] + [events[|events| - 1]];
    }
  }

  lemma TraceOfCase(events: seq<ProcessEvent>, c: string)
    ensures Trace(events, c) != [] <==> c in Cases(events)
    ensures |Trace(events, c)| == |StampedOf(events, c)|
  {
    StampedOfCase(events, c);
    SortSorts(StampedOf(events, c));
    assert |multiset(SortByNumber(StampedOf(events, c)))| == |multiset(StampedOf(events, c))|;
  }

  lemma {:induction false} OccurrencesContain(events: seq<ProcessEvent>, cases: set<string>, c: string, x: string)
    requires c in cases && x in Trace(events, c)
    ensures x in SumOver(cases, OccurrencesOf(events))
  {
    SumOverOf(cases, OccurrencesOf(events), c);
    assert x in multiset(Trace(events, c));
  }

  lemma LabelsSnoc(s: seq<Stamped>, x: Stamped)
    ensures Labels(s + [x]) == Labels(s) + [x.1]
  {}

  lemma {:induction false} InsertLabels(s: seq<Stamped>, x: Stamped)
    ensures multiset(Labels(Insert(s, x))) == multiset(Labels(s)) + multiset{x.1}
  {
    hide Labels;
    if s == [] || s[|s| - 1].0 <= x.0 {
      LabelsSnoc(s, x);
    } else {
      var front, last := s[..|s| - 1], s[|s| - 1];
      InsertLabels(front, x);
      LabelsSnoc(Insert(front, x), last);
      LabelsSnoc(front, last);
      assert s == front + [last];
    }
  }

  /** Sorting an event in adds its activity to the trace of its case, and leaves the others alone. */
  lemma TraceGrows(events: seq<ProcessEvent>, e: ProcessEvent, c: string)
    ensures multiset(Trace(events + [e], c)) ==
            multiset(Trace(events, c)) + if e.case_ == c then multiset{e.activity} else multiset{}
  {
    StampedSnoc(events, e, c);
    var stamps, x := StampedOf(events, c), (e.sequence, e.activity);
    assert stamps + [] == stamps && (stamps + [x])[..|stamps|] == stamps;
    InsertLabels(SortByNumber(stamps), x);
  }

  /** Every event is counted once, under its activity. */
  lemma {:induction false} OccurrencesAre(events: seq<ProcessEvent>, cases: set<string>)
    requires Cases(events) <= cases
    ensures SumOver(cases, OccurrencesOf(events)) == multiset(Activities(events))
  {
    if events == [] {
      EmptyTraces(cases);
    } else {
      hide Trace, Activities;
      var front, e := events[..|events| - 1], events[|events| - 1];
      assert events == front + [e];
      CasesSnoc(front, e);
      OccurrencesAre(front, cases);
      var f, g := OccurrencesOf(front), OccurrencesOf(events);
      SumOverOf(cases, f, e.case_);
      SumOverOf(cases, g, e.case_);
      forall c ensures g(c) == f(c) + if e.case_ == c then multiset{e.activity} else multiset{} {
        TraceGrows(front, e, c);
      }
      SumOverSame(cases - {e.case_}, f, g);
      ActivitiesSnoc(front, e);
    }
  }

  lemma ActivitiesSnoc(events: seq<ProcessEvent>, e: ProcessEvent)
    ensures Activities(events + [e]) == Activities(events) + [e.activity]
  {}

  lemma {:induction false} EmptyTraces(cases: set<string>)
    ensures SumOver(cases, OccurrencesOf([])) == multiset{}
    decreases cases
  {
    if c :| c in cases {
      SumOverOf(cases, OccurrencesOf([]), c);
      EmptyTraces(cases - {c});
    }
  }

  /** Kirchhoff's law for the mined counters: every occurrence of an activity is a trace start
      or was entered, and is a trace end or was left; and the totals fit. */
  lemma FlowConservation(events: seq<ProcessEvent>, a: string)
    ensures var d, k := DataOf(events), DataOf(events).counters;
            && k.occurrences[a] == k.starts[a] + Flow(d.activities, k.graph, Into(a))
            && k.occurrences[a] == k.ends[a] + Flow(d.activities, k.graph, OutOf(a))
            && |k.starts| == |k.ends| == |Cases(events)|
            && |k.occurrences| == |events|
            && |k.graph| == |events| - |Cases(events)|
  {
    var d, cs := DataOf(events), Cases(events);
    forall c, x | c in cs && x in Trace(events, c) ensures x in d.activities {
      OccurrencesContain(events, cs, c, x);
    }
    forall c | c in cs ensures Trace(events, c) != [] {
      TraceOfCase(events, c);
    }
    SumFlow(events, cs, d.activities, a);
    OccurrencesAre(events, cs);
    assert |multiset(Activities(events))| == |events|;
  }

  // ---------- order of arrival does not matter ----------

  ghost predicate DistinctSequences(events: seq<ProcessEvent>) {
    forall i, j | 0 <= i < j < |events| :: events[i].sequence != events[j].sequence
  }

  /** The stamps of a case, independently of the order of its events. */
  ghost function StampSet(events: set<ProcessEvent>, c: string): set<Stamped> {
    set e | e in events && e.case_ == c :: (e.sequence, e.activity)
  }

  /** Sorting in one more stamp, the set of events growing by its event. */
  lemma InsertStamp(sorted: seq<Stamped>, events: set<ProcessEvent>, e: ProcessEvent, c: string)
    requires StrictlySorted(sorted) && Elements(sorted) == StampSet(events, c)
    requires forall x | x in events :: x.sequence != e.sequence
    ensures var next := if e.case_ == c then Insert(sorted, (e.sequence, e.activity)) else sorted;
            StrictlySorted(next) && Elements(next) == StampSet(events + {e}, c)
  {
    assert StampSet(events + {e}, c) ==
           StampSet(events, c) + (if e.case_ == c then {(e.sequence, e.activity)} else {});
    forall y | y in sorted ensures y.0 != e.sequence {
      assert y in Elements(sorted);
    }
    if e.case_ == c {
      InsertStrict(sorted, (e.sequence, e.activity));
    }
  }

  lemma {:induction false} SortedStamps(events: seq<ProcessEvent>, c: string)
    requires DistinctSequences(events)
    ensures StrictlySorted(SortByNumber(StampedOf(events, c)))
    ensures Elements(SortByNumber(StampedOf(events, c))) == StampSet((set e | e in events), c)
  {
    hide Insert, StrictlySorted, Elements, StampSet;
    if events == [] {
      NoStamps(c);
      assert (set e | e in events) == {};
    } else {
      var front, e := events[..|events| - 1], events[|events| - 1];
      SortedStamps(front, c);
      assert events == front + [e];
      assert (set x | x in events) == (set x | x in front) + {e};
      var stamps := StampedOf(front, c);
      assert (stamps + [(e.sequence, e.activity)])[..|stamps|] == stamps && stamps + [] == stamps;
      InsertStamp(SortByNumber(StampedOf(front, c)), (set x | x in front), e, c);
    }
  }

  lemma NoStamps(c: string)
    ensures StrictlySorted<string>([]) && Elements<string>([]) == StampSet({}, c)
  {}

  lemma SameTrace(events: seq<ProcessEvent>, events': seq<ProcessEvent>, c: string)
    requires (set e | e in events) == (set e | e in events')
    requires DistinctSequences(events) && DistinctSequences(events')
    ensures Trace(events, c) == Trace(events', c)
  {
    SortedStamps(events, c);
    SortedStamps(events', c);
    hide SortByNumber, StampedOf, StrictlySorted, StampSet, DistinctSequences;
    StrictlySortedUnique(SortByNumber(StampedOf(events, c)), SortByNumber(StampedOf(events', c)));
  }

  lemma SameCounters(events: seq<ProcessEvent>, events': seq<ProcessEvent>, cases: set<string>)
    requires forall c :: Trace(events, c) == Trace(events', c)
    ensures CountersOver(events, cases) == CountersOver(events', cases)
  {
    hide Trace, Pairs, SumOver;
    SumOverSame(cases, PairsOf(events), PairsOf(events'));
    SumOverSame(cases, OccurrencesOf(events), OccurrencesOf(events'));
    SumOverSame(cases, StartOf(events), StartOf(events'));
    SumOverSame(cases, EndOf(events), EndOf(events'));
  }

  /** With distinct sequence numbers every permutation of the events gives the same data. */
  lemma PermutationInvariant(events: seq<ProcessEvent>, events': seq<ProcessEvent>)
    requires multiset(events) == multiset(events') && DistinctSequences(events)
    ensures DataOf(events) == DataOf(events')
  {
    hide Trace, Cases, DistinctSequences, CountersOver;
    DistinctInAnyOrder(events, events');
    SameEvents(events, events');
    forall c ensures Trace(events, c) == Trace(events', c) {
      SameTrace(events, events', c);
    }
    SameCounters(events, events', Cases(events));
  }

  lemma SameEvents(events: seq<ProcessEvent>, events': seq<ProcessEvent>)
    requires multiset(events) == multiset(events')
    ensures (set e | e in events) == (set e | e in events') && Cases(events) == Cases(events')
  {
    forall e ensures e in events <==> e in events' {
      assert e in events <==> e in multiset(events);
      assert e in events' <==> e in multiset(events');
    }
  }

  lemma DistinctInAnyOrder(events: seq<ProcessEvent>, events': seq<ProcessEvent>)
    requires multiset(events) == multiset(events') && DistinctSequences(events)
    ensures DistinctSequences(events')
  {
    forall i, j | 0 <= i < j < |events'| ensures events'[i].sequence != events'[j].sequence {
      var a, b := events'[i], events'[j];
      assert a in multiset(events) && b in multiset(events);
      if a == b {
        TwiceInSequence(events', i, j);
        OnceInDistinct(events, a);
      }
    }
  }

  lemma TwiceInSequence(events: seq<ProcessEvent>, i: nat, j: nat)
    requires i < j < |events| && events[i] == events[j]
    ensures multiset(events)[events[i]] >= 2
  {
    assert events == events[..i] + [events[i]] + events[i + 1..j] + [events[j]] + events[j + 1..];
  }

  lemma {:induction false} OnceInDistinct(events: seq<ProcessEvent>, e: ProcessEvent)
    requires DistinctSequences(events)
    ensures multiset(events)[e] <= 1
  {
    if events != [] {
      assert events == events[..|events| - 1] + [events[|events| - 1]];
      OnceInDistinct(events[..|events| - 1], e);
    }
  }
}
