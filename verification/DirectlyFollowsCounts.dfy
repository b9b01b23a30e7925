/** What the four counters count, said of the events alone: no trace, no sorting, no order of cases. */
module DirectlyFollowsCounts {
  import opened Events
  import opened Sorting
  import opened DirectlyFollows

  /** `f` comes right after `e` in its case: numbered higher, with nothing of the case in between. */
  ghost predicate FollowsIn(events: set<ProcessEvent>, e: ProcessEvent, f: ProcessEvent) {
    && e in events && f in events && e.case_ == f.case_ && e.sequence < f.sequence
    && forall g | g in events && g.case_ == e.case_ :: !(e.sequence < g.sequence < f.sequence)
  }

  ghost predicate FirstIn(events: set<ProcessEvent>, e: ProcessEvent) {
    e in events && forall g | g in events && g.case_ == e.case_ :: e.sequence <= g.sequence
  }

  ghost predicate LastIn(events: set<ProcessEvent>, e: ProcessEvent) {
    e in events && forall g | g in events && g.case_ == e.case_ :: g.sequence <= e.sequence
  }

  ghost function EventSet(events: seq<ProcessEvent>): set<ProcessEvent> {
    set e | e in events
  }

  ghost function FollowPairs(events: set<ProcessEvent>, a: string, b: string): set<(ProcessEvent, ProcessEvent)> {
    set e, f | e in events && f in events && FollowsIn(events, e, f) && e.activity == a && f.activity == b :: (e, f)
  }

  ghost function FirstEvents(events: set<ProcessEvent>, a: string): set<ProcessEvent> {
    set e | e in events && FirstIn(events, e) && e.activity == a
  }

  ghost function LastEvents(events: set<ProcessEvent>, a: string): set<ProcessEvent> {
    set e | e in events && LastIn(events, e) && e.activity == a
  }

  // ---------- one trace ----------

  /** The same, of the stamps of one case. */
  ghost predicate Adjacent(stamps: set<Stamped>, x: Stamped, y: Stamped) {
    x in stamps && y in stamps && x.0 < y.0 && forall z | z in stamps :: !(x.0 < z.0 < y.0)
  }

  ghost function AdjacentPairs(stamps: set<Stamped>, a: string, b: string): set<(Stamped, Stamped)> {
    set x, y | x in stamps && y in stamps && Adjacent(stamps, x, y) && x.1 == a && y.1 == b :: (x, y)
  }

  ghost function LeastStamps(stamps: set<Stamped>, a: string): set<Stamped> {
    set x | x in stamps && x.1 == a && forall z | z in stamps :: x.0 <= z.0
  }

  ghost function GreatestStamps(stamps: set<Stamped>, a: string): set<Stamped> {
    set x | x in stamps && x.1 == a && forall z | z in stamps :: z.0 <= x.0
  }

  lemma LabelsOfFront(s: seq<Stamped>)
    requires s != []
    ensures Labels(s)[..|s| - 1] == Labels(s[..|s| - 1])
  {}

  lemma LastAdjacent(s: seq<Stamped>, a: string, b: string)
    requires |s| >= 2 && StrictlySorted(s)
    ensures var (x, y) := (s[|s| - 2], s[|s| - 1]);
            && AdjacentPairs(Elements(s), a, b) ==
                 AdjacentPairs(Elements(s[..|s| - 1]), a, b) + (if x.1 == a && y.1 == b then {(x, y)} else {})
            && (x, y) !in AdjacentPairs(Elements(s[..|s| - 1]), a, b)
  {
    var n := |s| - 1;
    var x, y, front := s[n - 1], s[n], s[..n];
    LastIsStrictlyLargest(s);
    LastIsStrictlyLargest(front);
    hide StrictlySorted;
    assert x in Elements(front) && y !in Elements(front);
    forall u, v | u in Elements(s) && v in Elements(s)
      ensures Adjacent(Elements(s), u, v) <==> Adjacent(Elements(front), u, v) || (u == x && v == y)
    {}
  }

  lemma PairsOfLonger(s: seq<Stamped>)
    requires |s| >= 2
    ensures Pairs(Labels(s)) == Pairs(Labels(s[..|s| - 1])) + [(s[|s| - 2].1, s[|s| - 1].1)]
  {
    LabelsOfFront(s);
  }

  lemma NoPairs(s: seq<Stamped>, a: string, b: string)
    requires |s| < 2
    ensures Pairs(Labels(s)) == [] && AdjacentPairs(Elements(s), a, b) == {}
  {}

  lemma {:induction false} PairsAreAdjacent(s: seq<Stamped>, a: string, b: string)
    requires StrictlySorted(s)
    ensures multiset(Pairs(Labels(s)))[(a, b)] == |AdjacentPairs(Elements(s), a, b)|
  {
    if |s| < 2 {
      NoPairs(s, a, b);
    } else {
      LastIsStrictlyLargest(s);
      hide StrictlySorted, Pairs, Labels, AdjacentPairs, Elements;
      var front, x, y := s[..|s| - 1], s[|s| - 2], s[|s| - 1];
      PairsAreAdjacent(front, a, b);
      LastAdjacent(s, a, b);
      PairsOfLonger(s);
      CountSnoc(Pairs(Labels(front)), (x.1, y.1), (a, b));
    }
  }

  lemma CountSnoc<T>(s: seq<T>, x: T, y: T)
    ensures multiset(s + [x])[y] == multiset(s)[y] + if x == y then 1 else 0
  {}

  lemma EndsOfTrace(s: seq<Stamped>, a: string)
    requires s != [] && StrictlySorted(s)
    ensures |LeastStamps(Elements(s), a)| == if s[0].1 == a then 1 else 0
    ensures |GreatestStamps(Elements(s), a)| == if s[|s| - 1].1 == a then 1 else 0
  {
    var n := |s| - 1;
    assert s[0] in Elements(s) && s[n] in Elements(s);
    forall x | x in Elements(s) ensures s[0].0 <= x.0 <= s[n].0 {}
    assert LeastStamps(Elements(s), a) == if s[0].1 == a then {s[0]} else {};
    assert GreatestStamps(Elements(s), a) == if s[n].1 == a then {s[n]} else {};
  }

  // ---------- from the stamps of a case to its events ----------

  lemma {:induction false} SameSize<A, B>(s: set<A>, t: set<B>, f: A -> B)
    requires forall x | x in s :: f(x) in t
    requires forall x, y | x in s && y in s && f(x) == f(y) :: x == y
    requires forall z | z in t :: exists x | x in s :: f(x) == z
    ensures |s| == |t|
    decreases s
  {
    if x :| x in s {
      SameSize(s - {x}, t - {f(x)}, f);
    } else {
      assert t == {};
    }
  }

  ghost predicate DistinctNumbers(events: set<ProcessEvent>) {
    forall e, f | e in events && f in events && e.sequence == f.sequence :: e == f
  }

  ghost function OfCase<E>(all: set<E>, caseOf: E -> string, c: string): set<E> {
    set x | x in all && caseOf(x) == c
  }

  function EventCase(e: ProcessEvent): string {
    e.case_
  }

  function PairCase(p: (ProcessEvent, ProcessEvent)): string {
    p.0.case_
  }

  function Stamp(e: ProcessEvent): Stamped {
    (e.sequence, e.activity)
  }

  lemma StampIn(events: set<ProcessEvent>, c: string)
    ensures forall e | e in events && e.case_ == c :: Stamp(e) in StampSet(events, c)
    ensures forall x | x in StampSet(events, c) :: exists e | e in events :: e.case_ == c && Stamp(e) == x
  {}

  lemma FollowsIsAdjacent(events: set<ProcessEvent>, c: string, e: ProcessEvent, f: ProcessEvent)
    requires e in events && f in events && e.case_ == f.case_ == c
    ensures FollowsIn(events, e, f) <==> Adjacent(StampSet(events, c), Stamp(e), Stamp(f))
  {
    StampIn(events, c);
    var stamps := StampSet(events, c);
    hide StampSet;
    if FollowsIn(events, e, f) {
      forall z | z in stamps ensures !(Stamp(e).0 < z.0 < Stamp(f).0) {
        var g :| g in events && g.case_ == c && Stamp(g) == z;
      }
    }
    if Adjacent(stamps, Stamp(e), Stamp(f)) {
      forall g | g in events && g.case_ == e.case_ ensures !(e.sequence < g.sequence < f.sequence) {
        assert Stamp(g) in stamps;
      }
    }
  }

  lemma CaseFollows(events: set<ProcessEvent>, c: string, a: string, b: string)
    requires DistinctNumbers(events)
    ensures |OfCase(FollowPairs(events, a, b), PairCase, c)| ==
            |AdjacentPairs(StampSet(events, c), a, b)|
  {
    var s := OfCase(FollowPairs(events, a, b), PairCase, c);
    var t := AdjacentPairs(StampSet(events, c), a, b);
    var f := (p: (ProcessEvent, ProcessEvent)) => (Stamp(p.0), Stamp(p.1));
    StampIn(events, c);
    hide StampSet, Adjacent, FollowsIn;
    forall e, g | e in events && g in events && e.case_ == g.case_ == c
      ensures FollowsIn(events, e, g) <==> Adjacent(StampSet(events, c), Stamp(e), Stamp(g))
    {
      FollowsIsAdjacent(events, c, e, g);
    }
    forall p | p in s ensures f(p) in t {
      FollowsSameCase(events, p.0, p.1);
    }
    forall z | z in t ensures exists p | p in s :: f(p) == z {
      var e :| e in events && e.case_ == c && Stamp(e) == z.0;
      var g :| g in events && g.case_ == c && Stamp(g) == z.1;
      assert (e, g) in s && f((e, g)) == z;
    }
    SameSize(s, t, f);
  }

  lemma FollowsSameCase(events: set<ProcessEvent>, e: ProcessEvent, f: ProcessEvent)
    requires FollowsIn(events, e, f)
    ensures e.case_ == f.case_
  {}

  lemma CaseEnds(events: set<ProcessEvent>, c: string, a: string)
    requires DistinctNumbers(events)
    ensures |OfCase(FirstEvents(events, a), EventCase, c)| == |LeastStamps(StampSet(events, c), a)|
    ensures |OfCase(LastEvents(events, a), EventCase, c)| ==
            |GreatestStamps(StampSet(events, c), a)|
  {
    StampIn(events, c);
    var stamps := StampSet(events, c);
    hide StampSet;
    forall e | e in events && e.case_ == c
      ensures FirstIn(events, e) <==> forall z | z in stamps :: e.sequence <= z.0
      ensures LastIn(events, e) <==> forall z | z in stamps :: z.0 <= e.sequence
    {
      assert forall g | g in events && g.case_ == c :: Stamp(g) in stamps && Stamp(g).0 == g.sequence;
    }
    hide FirstIn, LastIn;
    SameSize(OfCase(FirstEvents(events, a), EventCase, c), LeastStamps(stamps, a), Stamp);
    SameSize(OfCase(LastEvents(events, a), EventCase, c), GreatestStamps(stamps, a), Stamp);
  }

  // ---------- the sums over the cases ----------

  lemma {:induction false} CountByCase<T, E>(cases: set<string>, f: string -> multiset<T>, x: T, all: set<E>,
                                             caseOf: E -> string)
    requires forall c | c in cases :: f(c)[x] == |OfCase(all, caseOf, c)|
    ensures SumOver(cases, f)[x] == |set e | e in all && caseOf(e) in cases|
    decreases cases
  {
    if c :| c in cases {
      CountByCase(cases - {c}, f, x, all, caseOf);
      SumOverOf(cases, f, c);
      var rest := set e | e in all && caseOf(e) in cases - {c};
      assert (set e | e in all && caseOf(e) in cases) == rest + OfCase(all, caseOf, c);
      assert rest !! OfCase(all, caseOf, c);
    } else {
      assert (set e | e in all && caseOf(e) in cases) == {};
    }
  }

  lemma CountAll<T, E>(cases: set<string>, f: string -> multiset<T>, x: T, all: set<E>, caseOf: E -> string)
    requires forall c | c in cases :: f(c)[x] == |OfCase(all, caseOf, c)|
    requires forall e | e in all :: caseOf(e) in cases
    ensures SumOver(cases, f)[x] == |all|
  {
    CountByCase(cases, f, x, all, caseOf);
    assert (set e | e in all && caseOf(e) in cases) == all;
  }

  lemma NumbersAreDistinct(events: seq<ProcessEvent>)
    requires DistinctSequences(events)
    ensures DistinctNumbers(EventSet(events))
  {}

  lemma TraceCounts(events: seq<ProcessEvent>, c: string, a: string, b: string, stamps: set<Stamped>)
    requires var s := SortByNumber(StampedOf(events, c)); s != [] && StrictlySorted(s) && Elements(s) == stamps
    ensures PairsOf(events)(c)[(a, b)] == |AdjacentPairs(stamps, a, b)|
    ensures StartOf(events)(c)[a] == |LeastStamps(stamps, a)|
    ensures EndOf(events)(c)[a] == |GreatestStamps(stamps, a)|
  {
    hide SortByNumber, StampedOf, StrictlySorted, Elements, Pairs, AdjacentPairs, LeastStamps, GreatestStamps;
    var s := SortByNumber(StampedOf(events, c));
    PairsAreAdjacent(s, a, b);
    EndsOfTrace(s, a);
  }

  lemma CaseCounts(events: seq<ProcessEvent>, c: string, a: string, b: string)
    requires DistinctSequences(events) && c in Cases(events)
    ensures PairsOf(events)(c)[(a, b)] == |AdjacentPairs(StampSet(EventSet(events), c), a, b)|
    ensures StartOf(events)(c)[a] == |LeastStamps(StampSet(EventSet(events), c), a)|
    ensures EndOf(events)(c)[a] == |GreatestStamps(StampSet(EventSet(events), c), a)|
  {
    hide SortByNumber, StampedOf, StrictlySorted, Elements, StampSet, AdjacentPairs, LeastStamps, GreatestStamps,
         PairsOf, StartOf, EndOf, DistinctSequences, Cases;
    SortedStamps(events, c);
    TraceOfCase(events, c);
    TraceCounts(events, c, a, b, StampSet(EventSet(events), c));
  }

  /** With distinct sequence numbers: the graph counts, for each pair of activities, the pairs of events
      of one case that come right after one another; starts and ends count the cases by the activity of
      their first and last event; and, whatever the numbers, occurrences count the events. */
  lemma CountersCount(events: seq<ProcessEvent>, a: string, b: string)
    requires DistinctSequences(events)
    ensures var (k, all) := (DataOf(events).counters, EventSet(events));
            && k.graph[(a, b)] == |FollowPairs(all, a, b)|
            && k.starts[a] == |FirstEvents(all, a)|
            && k.ends[a] == |LastEvents(all, a)|
  {
    hide Cases, PairsOf, StartOf, EndOf, StampSet, FollowPairs, FirstEvents, LastEvents, AdjacentPairs, LeastStamps,
         GreatestStamps, DistinctSequences, DistinctNumbers, SumOver, OfCase;
    var cases, all := Cases(events), EventSet(events);
    NumbersAreDistinct(events);
    forall c | c in cases
      ensures PairsOf(events)(c)[(a, b)] == |OfCase(FollowPairs(all, a, b), PairCase, c)|
      ensures StartOf(events)(c)[a] == |OfCase(FirstEvents(all, a), EventCase, c)|
      ensures EndOf(events)(c)[a] == |OfCase(LastEvents(all, a), EventCase, c)|
    {
      CaseCounts(events, c, a, b);
      CaseFollows(all, c, a, b);
      CaseEnds(all, c, a);
    }
    CasesCover(events, a, b);
    CountAll(cases, PairsOf(events), (a, b), FollowPairs(all, a, b), PairCase);
    CountAll(cases, StartOf(events), a, FirstEvents(all, a), EventCase);
    CountAll(cases, EndOf(events), a, LastEvents(all, a), EventCase);
  }

  lemma CasesCover(events: seq<ProcessEvent>, a: string, b: string)
    ensures var (cases, all) := (Cases(events), EventSet(events));
            && (forall p | p in FollowPairs(all, a, b) :: PairCase(p) in cases)
            && (forall e | e in FirstEvents(all, a) || e in LastEvents(all, a) :: EventCase(e) in cases)
  {}

  /** Whatever the numbers, occurrences count the events by activity, and the activities are theirs. */
  lemma OccurrencesCount(events: seq<ProcessEvent>)
    ensures DataOf(events).counters.occurrences == multiset(Activities(events))
    ensures DataOf(events).activities == set e | e in events :: e.activity
  {
    OccurrencesAre(events, Cases(events));
    hide SumOver, OccurrencesOf;
    ActivitiesInMultiset(events);
  }

  lemma ActivitiesInMultiset(events: seq<ProcessEvent>)
    ensures (set a | a in multiset(Activities(events))) == set e | e in events :: e.activity
  {
    forall a ensures a in multiset(Activities(events)) <==> exists e | e in events :: e.activity == a {
      assert a in multiset(Activities(events)) <==> a in Activities(events);
      assert forall i | 0 <= i < |events| :: Activities(events)[i] == events[i].activity && events[i] in events;
    }
  }
}
