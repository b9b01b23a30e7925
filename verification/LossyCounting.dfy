/** Manku and Motwani's lossy counting over one discovery window: the table of counters, its
    two-sided error bound, what the filter keeps, and how large the table can grow. */
module LossyCounting {
  import opened Events

  /** `count` occurrences seen since tracking began, at most `delta` missed before. */
  datatype Counter = Counter(count: nat, delta: nat)
  type Table = map<string, Counter>

  function Bucket(n: nat, width: nat): nat
    requires width > 0
  {
    (n + width - 1) / width
  }

  /** Buckets completed after `n` events, and whether the last event completed one. */
  function Completed(n: nat, width: nat): nat
    requires width > 0
  {
    n / width
  }

  predicate BucketEnds(n: nat, width: nat)
    requires width > 0
  {
    n % width == 0
  }

  function Bump(table: Table, activity: string, bucket: nat): Table
    requires bucket > 0
  {
    if activity in table
    then table[activity := Counter(table[activity].count + 1, table[activity].delta)]
    else table[activity := Counter(1, bucket - 1)]
  }

  function Prune(table: Table, bucket: nat): Table {
    map a | a in table && table[a].count + table[a].delta > bucket :: table[a]
  }

  /** The table after the given activities. */
  function TableAfter(activities: seq<string>, width: nat): Table
    requires width > 0
  {
    if activities == [] then map[] else
      var n := |activities|;
      BucketStep(n, width);
      var bumped := Bump(TableAfter(activities[..n - 1], width), activities[n - 1], Bucket(n, width));
      if BucketEnds(n, width) then Prune(bumped, Bucket(n, width)) else bumped
  }

  function Occurrences(activities: seq<string>, a: string): nat {
    multiset(activities)[a]
  }

  /** A bucket starts after every `width` events. */
  lemma BucketStep(n: nat, width: nat)
    requires width > 0 && n > 0
    ensures Bucket(n, width) == Completed(n - 1, width) + 1
    ensures Completed(n, width) == Completed(n - 1, width) + (if BucketEnds(n, width) then 1 else 0)
  {
    var q, r := n / width, n % width;
    assert n == q * width + r;
    if r == 0 {
      assert n + width - 1 == q * width + (width - 1);
      DivUnique(n + width - 1, width, q, width - 1);
      assert n - 1 == (q - 1) * width + (width - 1);
      DivUnique(n - 1, width, q - 1, width - 1);
    } else {
      assert n + width - 1 == (q + 1) * width + (r - 1);
      DivUnique(n + width - 1, width, q + 1, r - 1);
      DivUnique(n - 1, width, q, r - 1);
    }
  }

  lemma DivUnique(n: nat, width: nat, q: int, r: nat)
    requires width > 0 && n == q * width + r && r < width
    ensures n / width == q
  {
    var d := q - n / width;
    assert d * width == n % width - r;
    if d >= 1 {
      AtLeastOnce(d, width);
    } else if d <= -1 {
      AtLeastOnce(-d, width);
    }
  }

  lemma AtLeastOnce(d: int, width: nat)
    requires d >= 1
    ensures d * width >= width
  {
    assert d * width == (d - 1) * width + width;
  }

  // ---------- error bound ----------

  /** A tracked count is at most `delta` too low, and an untracked activity occurred at most
      once per completed bucket. */
  ghost predicate Bounded(activities: seq<string>, bucket: nat, completed: nat, table: Table) {
    && (forall a | a in table ::
          && 1 <= table[a].count <= Occurrences(activities, a) <= table[a].count + table[a].delta
          && table[a].delta + 1 <= bucket)
    && (forall a | a !in table :: Occurrences(activities, a) <= completed)
  }

  lemma BumpBounded(activities: seq<string>, a: string, completed: nat, table: Table, bucket: nat)
    requires Bounded(activities, bucket, completed, table) && bucket <= completed + 1
    ensures Bounded(activities + [a], completed + 1, completed, Bump(table, a, completed + 1))
  {
    forall x ensures Occurrences(activities + [a], x) == Occurrences(activities, x) + (if x == a then 1 else 0) {}
  }

  lemma PruneBounded(activities: seq<string>, completed: nat, table: Table)
    requires Bounded(activities, completed + 1, completed, table)
    ensures Bounded(activities, completed + 1, completed + 1, Prune(table, completed + 1))
  {}

  /** At every point of the stream. */
  lemma {:induction false} ErrorBound(activities: seq<string>, width: nat)
    requires width > 0
    ensures Bounded(activities, Bucket(|activities|, width), Completed(|activities|, width),
                    TableAfter(activities, width))
  {
    if activities == [] {
      DivUnique(width - 1, width, 0, width - 1);
      DivUnique(0, width, 0, 0);
    } else {
      var n := |activities|;
      ErrorBound(activities[..n - 1], width);
      ErrorBoundStep(activities, width);
    }
  }

  lemma TableStep(activities: seq<string>, width: nat)
    requires width > 0 && activities != []
    ensures var n := |activities|;
            var t := Bump(TableAfter(activities[..n - 1], width), activities[n - 1], Bucket(n, width));
            TableAfter(activities, width) == if BucketEnds(n, width) then Prune(t, Bucket(n, width)) else t
  {
    hide Bump, Prune, Bucket, BucketEnds;
  }

  /** One event of the stream: counted in bucket `bucket'`, which it may end. */
  lemma BumpPruneBounded(before: seq<string>, a: string, table: Table, bucket: nat, completed: nat,
                         after: seq<string>, table': Table, bucket': nat, completed': nat, ends: bool)
    requires Bounded(before, bucket, completed, table) && bucket <= bucket' == completed + 1
    requires after == before + [a] && completed' == if ends then bucket' else completed
    requires table' == if ends then Prune(Bump(table, a, bucket'), bucket') else Bump(table, a, bucket')
    ensures Bounded(after, bucket', completed', table')
  {
    hide Bump, Prune, Bounded;
    BumpBounded(before, a, completed, table, bucket);
    PruneBounded(before + [a], completed, Bump(table, a, completed + 1));
  }

  lemma LastApart(s: seq<string>)
    requires s != []
    ensures s[..|s| - 1] + [s[|s| - 1]] == s
  {}

  lemma ErrorBoundStep(activities: seq<string>, width: nat)
    requires width > 0 && activities != []
    requires var before := activities[..|activities| - 1];
             Bounded(before, Bucket(|before|, width), Completed(|before|, width), TableAfter(before, width))
    ensures Bounded(activities, Bucket(|activities|, width), Completed(|activities|, width),
                    TableAfter(activities, width))
  {
    hide *;
    var n := |activities|;
    var before, last := activities[..n - 1], activities[n - 1];
    LastApart(activities);
    TableStep(activities, width);
    BucketStep(n, width);
    BucketAtMost(n - 1, width);
    BumpPruneBounded(before, last, TableAfter(before, width), Bucket(n - 1, width), Completed(n - 1, width),
                     activities, TableAfter(activities, width), Bucket(n, width), Completed(n, width),
                     BucketEnds(n, width));
  }

  lemma BucketAtMost(n: nat, width: nat)
    requires width > 0
    ensures Bucket(n, width) <= Completed(n, width) + 1
  {
    if n == 0 {
      DivUnique(width - 1, width, 0, width - 1);
    } else {
      BucketStep(n, width);
    }
  }

  // ---------- what the filter keeps ----------

  /** The activities whose events survive the window's final prune. */
  function Retained(activities: seq<string>, width: nat): set<string>
    requires width > 0
  {
    Prune(TableAfter(activities, width), Bucket(|activities|, width)).Keys
  }

  /** No frequent activity is lost, and nothing seen only once is kept. */
  lemma RetainedBounds(activities: seq<string>, width: nat, a: string)
    requires width > 0
    ensures Occurrences(activities, a) > Bucket(|activities|, width) ==> a in Retained(activities, width)
    ensures a in Retained(activities, width) ==> Occurrences(activities, a) >= 2
  {
    ErrorBound(activities, width);
    if activities != [] {
      BucketStep(|activities|, width);
    }
  }

  // ---------- exactly what is kept ----------

  /** Occurrences after the first `d` buckets. */
  function OccurrencesAfter(activities: seq<string>, width: nat, d: nat, a: string): nat
    requires d * width <= |activities|
  {
    Occurrences(activities[d * width..], a)
  }

  /** A tracked entry counts exactly the occurrences after its `delta` buckets, and among the starts of
      the first `starts` buckets none gives more, less one for every bucket since. */
  ghost predicate TracksBest(activities: seq<string>, width: nat, starts: nat, a: string, c: Counter)
    requires starts * width <= |activities|
  {
    && c.delta <= starts
    && StartFits(activities, width, starts, c.delta)
    && c.count == OccurrencesAfter(activities, width, c.delta, a)
    && NeverAbove(activities, width, starts, a, c.count + c.delta)
  }

  ghost predicate NeverAbove(activities: seq<string>, width: nat, starts: nat, a: string, most: nat)
    requires starts * width <= |activities|
  {
    forall d: nat | d <= starts ::
      StartFits(activities, width, starts, d) && OccurrencesAfter(activities, width, d, a) + d <= most
  }

  predicate StartFits(activities: seq<string>, width: nat, starts: nat, d: nat)
    requires starts * width <= |activities| && d <= starts
    ensures d * width <= |activities|
  {
    assert (starts - d) * width >= 0;
    assert starts * width == d * width + (starts - d) * width;
    true
  }

  ghost predicate Exact(activities: seq<string>, width: nat, starts: nat, table: Table) {
    && starts * width <= |activities|
    && (forall a | a in table :: TracksBest(activities, width, starts, a, table[a]))
    && (forall a | a !in table :: NeverAbove(activities, width, starts, a, starts))
  }

  lemma OneMoreAfter(activities: seq<string>, x: string, width: nat, d: nat, a: string)
    requires d * width <= |activities|
    ensures OccurrencesAfter(activities + [x], width, d, a) ==
            OccurrencesAfter(activities, width, d, a) + if x == a then 1 else 0
  {
    assert (activities + [x])[d * width..] == activities[d * width..] + [x];
  }

  lemma OneMoreAbove(activities: seq<string>, x: string, width: nat, starts: nat, a: string, most: nat)
    requires starts * width <= |activities| && NeverAbove(activities, width, starts, a, most)
    ensures NeverAbove(activities + [x], width, starts, a, most + if x == a then 1 else 0)
  {
    hide OccurrencesAfter;
    forall d: nat | d <= starts
      ensures StartFits(activities + [x], width, starts, d)
              && OccurrencesAfter(activities + [x], width, d, a) + d <= most + if x == a then 1 else 0
    {
      assert StartFits(activities, width, starts, d);
      OneMoreAfter(activities, x, width, d, a);
    }
  }

  lemma BumpExact(activities: seq<string>, x: string, width: nat, completed: nat, table: Table)
    requires Exact(activities, width, completed, table)
    ensures Exact(activities + [x], width, completed, Bump(table, x, completed + 1))
  {
    hide OccurrencesAfter, NeverAbove;
    var table' := Bump(table, x, completed + 1);
    forall a | a in table' ensures TracksBest(activities + [x], width, completed, a, table'[a]) {
      BumpTracks(activities, x, width, completed, table, a);
    }
    forall a | a !in table' ensures NeverAbove(activities + [x], width, completed, a, completed) {
      OneMoreAbove(activities, x, width, completed, a, completed);
    }
  }

  lemma BumpTracks(activities: seq<string>, x: string, width: nat, completed: nat, table: Table, a: string)
    requires Exact(activities, width, completed, table) && a in Bump(table, x, completed + 1)
    ensures TracksBest(activities + [x], width, completed, a, Bump(table, x, completed + 1)[a])
  {
    hide OccurrencesAfter;
    if a in table {
      assert TracksBest(activities, width, completed, a, table[a]);
      OneMoreAbove(activities, x, width, completed, a, table[a].count + table[a].delta);
      OneMoreAfter(activities, x, width, table[a].delta, a);
    } else {
      OneMoreAbove(activities, x, width, completed, a, completed);
      assert StartFits(activities, width, completed, completed);
      OneMoreAfter(activities, x, width, completed, a);
    }
  }

  lemma StartAtEnd(activities: seq<string>, width: nat, completed: nat, a: string)
    requires |activities| == completed * width
    ensures OccurrencesAfter(activities, width, completed, a) == 0
  {}

  lemma AboveAtEnd(activities: seq<string>, width: nat, completed: nat, a: string, most: nat)
    requires |activities| == (completed + 1) * width && completed * width <= |activities|
    requires NeverAbove(activities, width, completed, a, most) && most >= completed + 1
    ensures NeverAbove(activities, width, completed + 1, a, most)
  {
    hide OccurrencesAfter;
    forall d: nat | d <= completed + 1
      ensures StartFits(activities, width, completed + 1, d) && OccurrencesAfter(activities, width, d, a) + d <= most
    {
      if d <= completed {
        assert StartFits(activities, width, completed, d);
      } else {
        StartAtEnd(activities, width, completed + 1, a);
      }
    }
  }

  lemma PruneExact(activities: seq<string>, width: nat, completed: nat, table: Table)
    requires Exact(activities, width, completed, table) && |activities| == (completed + 1) * width
    ensures Exact(activities, width, completed + 1, Prune(table, completed + 1))
  {
    hide OccurrencesAfter, NeverAbove;
    var table' := Prune(table, completed + 1);
    forall a | a in table' ensures TracksBest(activities, width, completed + 1, a, table'[a]) {
      assert TracksBest(activities, width, completed, a, table[a]);
      AboveAtEnd(activities, width, completed, a, table[a].count + table[a].delta);
      assert StartFits(activities, width, completed + 1, table[a].delta);
    }
    forall a | a !in table' ensures NeverAbove(activities, width, completed + 1, a, completed + 1) {
      if a in table {
        assert TracksBest(activities, width, completed, a, table[a]);
        MoreAllowed(activities, width, completed, a, table[a].count + table[a].delta, completed + 1);
      } else {
        MoreAllowed(activities, width, completed, a, completed, completed + 1);
      }
      AboveAtEnd(activities, width, completed, a, completed + 1);
    }
  }

  lemma MoreAllowed(activities: seq<string>, width: nat, starts: nat, a: string, most: nat, more: nat)
    requires starts * width <= |activities| && NeverAbove(activities, width, starts, a, most) && most <= more
    ensures NeverAbove(activities, width, starts, a, more)
  {}

  lemma NothingExact(width: nat)
    ensures Exact([], width, 0, map[])
  {}

  /** One event of the stream, which may end a bucket. */
  lemma BumpPruneExact(before: seq<string>, x: string, width: nat, completed: nat, table: Table,
                       after: seq<string>, completed': nat, table': Table, ends: bool)
    requires Exact(before, width, completed, table)
    requires after == before + [x] && completed' == if ends then completed + 1 else completed
    requires ends ==> |after| == completed' * width
    requires var bumped := Bump(table, x, completed + 1);
             table' == if ends then Prune(bumped, completed + 1) else bumped
    ensures Exact(after, width, completed', table')
  {
    hide Exact, Bump, Prune;
    BumpExact(before, x, width, completed, table);
    if ends {
      PruneExact(after, width, completed, Bump(table, x, completed + 1));
    }
  }

  lemma BucketEnd(n: nat, width: nat)
    requires width > 0 && BucketEnds(n, width)
    ensures n == Completed(n, width) * width
  {}

  lemma TableIsExactStep(activities: seq<string>, width: nat)
    requires width > 0 && activities != []
    requires var before := activities[..|activities| - 1];
             Exact(before, width, Completed(|before|, width), TableAfter(before, width))
    ensures Exact(activities, width, Completed(|activities|, width), TableAfter(activities, width))
  {
    hide *;
    var n := |activities|;
    var before, x := activities[..n - 1], activities[n - 1];
    LastApart(activities);
    TableStep(activities, width);
    BucketStep(n, width);
    if BucketEnds(n, width) {
      BucketEnd(n, width);
    }
    BumpPruneExact(before, x, width, Completed(n - 1, width), TableAfter(before, width), activities,
                   Completed(n, width), TableAfter(activities, width), BucketEnds(n, width));
  }

  lemma {:induction false} TableIsExact(activities: seq<string>, width: nat)
    requires width > 0
    ensures Exact(activities, width, Completed(|activities|, width), TableAfter(activities, width))
  {
    hide Exact;
    if activities == [] {
      DivUnique(0, width, 0, 0);
      NothingExact(width);
    } else {
      TableIsExact(activities[..|activities| - 1], width);
      TableIsExactStep(activities, width);
    }
  }

  /** After the first `d` buckets the activity occurred more often than buckets were begun. */
  ghost predicate OftenSince(activities: seq<string>, width: nat, d: nat, a: string)
    requires width > 0
  {
    d * width <= |activities| && OccurrencesAfter(activities, width, d, a) > Bucket(|activities|, width) - d
  }

  /** An activity is kept if and only if from the end of some bucket on, or from the very start, it
      occurred more often than buckets were begun. */
  lemma RetainedIff(activities: seq<string>, width: nat, a: string)
    requires width > 0
    ensures a in Retained(activities, width) <==> exists d: nat :: OftenSince(activities, width, d, a)
  {
    hide OccurrencesAfter, Bucket, TableAfter;
    TableIsExact(activities, width);
    BucketAtLeast(|activities|, width);
    var n, table, completed := |activities|, TableAfter(activities, width), Completed(|activities|, width);
    if a in Retained(activities, width) {
      assert TracksBest(activities, width, completed, a, table[a]);
      assert OftenSince(activities, width, table[a].delta, a);
    }
    if d: nat :| OftenSince(activities, width, d, a) {
      StartsUpTo(n, width, d);
      assert StartFits(activities, width, completed, d);
      assert a in table ==> TracksBest(activities, width, completed, a, table[a]);
    }
  }

  lemma StartsUpTo(n: nat, width: nat, d: nat)
    requires width > 0 && d * width <= n
    ensures d <= Completed(n, width)
  {
    var q := n / width;
    assert n == q * width + n % width;
    if d > q {
      AtLeastOnce(d - q, width);
      Distribute(q, d - q, width);
    }
  }

  lemma BucketAtLeast(n: nat, width: nat)
    requires width > 0
    ensures Bucket(n, width) >= Completed(n, width)
  {
    if n == 0 {
      DivUnique(0, width, 0, 0);
    } else {
      BucketStep(n, width);
    }
  }

  /** The events of the given activities, in their original order. */
  function KeepActivities(events: seq<ProcessEvent>, names: set<string>): seq<ProcessEvent> {
    if events == [] then [] else
      KeepActivities(events[..|events| - 1], names) +
      (if events[|events| - 1].activity in names then [events[|events| - 1]] else [])
  }

  /** The events of one activity, in order. */
  function EventsOf(events: seq<ProcessEvent>, a: string): seq<ProcessEvent> {
    if events == [] then [] else
      EventsOf(events[..|events| - 1], a) +
      (if events[|events| - 1].activity == a then [events[|events| - 1]] else [])
  }

  /** Keeping activities keeps all events of each of them, in order, and none of the others. */
  lemma {:induction false} KeepsEventsOf(events: seq<ProcessEvent>, names: set<string>, a: string)
    ensures EventsOf(KeepActivities(events, names), a) == if a in names then EventsOf(events, a) else []
  {
    if events != [] {
      var front, e := events[..|events| - 1], events[|events| - 1];
      KeepsEventsOf(front, names, a);
      var kept := KeepActivities(front, names);
      assert (kept + [e])[..|kept|] == kept;
      assert kept + [] == kept && EventsOf(front, a) + [] == EventsOf(front, a);
    }
  }

  lemma {:induction false} KeptHaveNames(events: seq<ProcessEvent>, names: set<string>)
    ensures forall e | e in KeepActivities(events, names) :: e in events && e.activity in names
  {
    if events != [] {
      KeptHaveNames(events[..|events| - 1], names);
    }
  }

  /** What lossy counting promises of the events it keeps: an activity is kept whole and in order, if it
      was frequent since some bucket, or not at all; so all events of every frequent activity are kept,
      and of every activity that is kept at all at least two. */
  ghost predicate KeepsFrequent(events: seq<ProcessEvent>, width: nat, kept: seq<ProcessEvent>)
    requires width > 0
  {
    && (forall a :: EventsOf(kept, a) == if exists d: nat :: OftenSince(Activities(events), width, d, a)
                                         then EventsOf(events, a) else [])
    && (forall a | Occurrences(Activities(events), a) > Bucket(|events|, width) ::
          EventsOf(kept, a) == EventsOf(events, a))
    && (forall e | e in kept :: e in events && Occurrences(Activities(events), e.activity) >= 2
                                && EventsOf(kept, e.activity) == EventsOf(events, e.activity))
  }

  lemma RetainedKeepFrequent(events: seq<ProcessEvent>, width: nat)
    requires width > 0
    ensures KeepsFrequent(events, width, KeepActivities(events, Retained(Activities(events), width)))
  {
    hide Retained, KeepActivities, EventsOf, Occurrences, Bucket, OftenSince;
    var activities, names := Activities(events), Retained(Activities(events), width);
    KeptHaveNames(events, names);
    forall a
      ensures EventsOf(KeepActivities(events, names), a) == if a in names then EventsOf(events, a) else []
      ensures a in names <==> exists d: nat :: OftenSince(activities, width, d, a)
      ensures Occurrences(activities, a) > Bucket(|events|, width) ==> a in names
      ensures a in names ==> Occurrences(activities, a) >= 2
    {
      KeepsEventsOf(events, names, a);
      RetainedIff(activities, width, a);
      RetainedBounds(activities, width, a);
    }
  }

  function Ceiling(x: real): (c: int)
    ensures x <= c as real < x + 1.0
  {
    -((-x).Floor)
  }

  method FilterDiscoveryEvents(events: seq<ProcessEvent>, maxApproxError: real) returns (kept: seq<ProcessEvent>)
    requires 0.0 < maxApproxError <= 1.0
    ensures Ceiling(1.0 / maxApproxError) >= 1
    ensures kept == KeepActivities(events, Retained(Activities(events), Ceiling(1.0 / maxApproxError)))
    ensures KeepsFrequent(events, Ceiling(1.0 / maxApproxError), kept)
  {
    hide KeepsFrequent;
    assert 1.0 / maxApproxError >= 1.0;
    var width := Ceiling(1.0 / maxApproxError);
    var counts: Table := map[];
    var activities := Activities(events);
    var i := 0;
    while i < |events|
      invariant 0 <= i <= |events|
      invariant counts == TableAfter(activities[..i], width)
    {
      var bucket := Bucket(i + 1, width);
      BucketStep(i + 1, width);
      counts := Bump(counts, events[i].activity, bucket);
      if BucketEnds(i + 1, width) {
        counts := Prune(counts, bucket);
      }
      assert activities[..i + 1][..i] == activities[..i];
      i := i + 1;
    }
    assert activities[..i] == activities;
    counts := Prune(counts, Bucket(|events|, width));
    kept := KeepActivities(events, counts.Keys);
    RetainedKeepFrequent(events, width);
  }

  // ---------- space bound ----------

  /** Entries whose tracking began after `k` completed buckets. */
  ghost function Since(table: Table, k: int): set<string> {
    set a | a in table && table[a].delta >= k
  }

  ghost function SumCounts(table: Table, names: set<string>): nat
    requires names <= table.Keys
  {
    if names == {} then 0 else
      var a :| a in names;
      table[a].count + SumCounts(table, names - {a})
  }

  lemma {:induction false} SumCountsOf(table: Table, names: set<string>, a: string)
    requires names <= table.Keys && a in names
    ensures SumCounts(table, names) == table[a].count + SumCounts(table, names - {a})
    decreases names
  {
    var b :| b in names && SumCounts(table, names) == table[b].count + SumCounts(table, names - {b});
    if a != b {
      SumCountsOf(table, names - {b}, a);
      SumCountsOf(table, names - {a}, b);
      assert names - {b} - {a} == names - {a} - {b};
    }
  }

  lemma {:induction false} SumCountsAgree(table: Table, table': Table, names: set<string>, names': set<string>)
    requires names <= names' <= table'.Keys && names <= table.Keys
    requires forall a | a in names :: table[a] == table'[a]
    ensures SumCounts(table, names) <= SumCounts(table', names')
    ensures names == names' ==> SumCounts(table, names) == SumCounts(table', names')
    decreases names
  {
    if a :| a in names {
      SumCountsOf(table, names, a);
      SumCountsOf(table', names', a);
      SumCountsAgree(table, table', names - {a}, names' - {a});
    }
  }

  lemma BumpAddsOne(table: Table, a: string, bucket: nat, k: nat)
    requires bucket > 0
    ensures var t := Bump(table, a, bucket);
            SumCounts(t, Since(t, k)) <= SumCounts(table, Since(table, k)) + 1
  {
    var t := Bump(table, a, bucket);
    var rest := Since(table, k) - {a};
    assert Since(t, k) - {a} == rest;
    SumCountsAgree(table, t, rest, rest);
    if a in Since(t, k) {
      SumCountsOf(t, Since(t, k), a);
    } else {
      assert Since(t, k) == rest;
    }
    if a in Since(table, k) {
      SumCountsOf(table, Since(table, k), a);
    } else {
      assert Since(table, k) == rest;
    }
  }

  /** At the end of bucket `k` nothing has been tracked for less than a bucket. */
  lemma NothingSinceYet(activities: seq<string>, width: nat, k: nat)
    requires width > 0 && k * width == |activities|
    ensures Since(TableAfter(activities, width), k) == {}
  {
    ErrorBound(activities, width);
    DivUnique(|activities|, width, k, 0);
    DivUnique(|activities| + width - 1, width, k, width - 1);
  }

  /** The counting lemma: entries first seen after `k` buckets count only events after them. */
  lemma {:induction false} CountsSince(activities: seq<string>, width: nat, k: nat)
    requires width > 0 && k * width <= |activities|
    ensures var t := TableAfter(activities, width);
            SumCounts(t, Since(t, k)) <= |activities| - k * width
  {
    if |activities| == k * width {
      NothingSinceYet(activities, width, k);
    } else {
      assert 0 <= k * width;
      CountsSince(activities[..|activities| - 1], width, k);
      CountsSinceStep(activities, width, k);
    }
  }

  lemma CountsSinceStep(activities: seq<string>, width: nat, k: nat)
    requires width > 0 && activities != []
    ensures var t, before := TableAfter(activities, width), TableAfter(activities[..|activities| - 1], width);
            SumCounts(t, Since(t, k)) <= SumCounts(before, Since(before, k)) + 1
  {
    hide Bump, Prune, SumCounts, Since, Bucket;
    var n := |activities|;
    BucketStep(n, width);
    EventAddsOne(TableAfter(activities[..n - 1], width), activities[n - 1], Bucket(n, width), k);
  }

  lemma EventAddsOne(before: Table, a: string, bucket: nat, k: nat)
    requires bucket > 0
    ensures var bumped := Bump(before, a, bucket);
            var pruned := Prune(bumped, bucket);
            && SumCounts(bumped, Since(bumped, k)) <= SumCounts(before, Since(before, k)) + 1
            && SumCounts(pruned, Since(pruned, k)) <= SumCounts(before, Since(before, k)) + 1
  {
    var bumped := Bump(before, a, bucket);
    var pruned := Prune(bumped, bucket);
    BumpAddsOne(before, a, bucket, k);
    SumCountsAgree(pruned, bumped, Since(pruned, k), Since(bumped, k));
  }

  /** What survived pruning has been seen in every bucket since, on average. */
  lemma {:induction false} SurvivorsAreFrequent(activities: seq<string>, width: nat, a: string)
    requires width > 0 && a in TableAfter(activities, width)
    ensures var c := TableAfter(activities, width)[a];
            c.count + c.delta >= Completed(|activities|, width) + 1
  {
    var n := |activities|;
    BucketStep(n, width);
    if a in TableAfter(activities[..n - 1], width) {
      SurvivorsAreFrequent(activities[..n - 1], width, a);
    }
  }

  ghost function Harmonic(width: nat, b: nat): real {
    if b == 0 then 0.0 else Harmonic(width, b - 1) + width as real / b as real
  }

  lemma OneMoreTimes(j: nat, c: nat)
    ensures j * (c + 1) == j * c + j
  {}

  lemma {:induction false} SumAtLeast(table: Table, old_: set<string>, fresh_: set<string>, j: nat)
    requires old_ + fresh_ <= table.Keys && old_ !! fresh_
    requires forall a | a in fresh_ :: table[a].count >= j
    ensures SumCounts(table, old_ + fresh_) >= SumCounts(table, old_) + j * |fresh_|
    decreases fresh_
  {
    if fresh_ == {} {
      assert old_ + fresh_ == old_;
    } else {
      var a :| a in fresh_;
      SumAtLeast(table, old_, fresh_ - {a}, j);
      SumCountsOf(table, old_ + fresh_, a);
      assert old_ + fresh_ - {a} == old_ + (fresh_ - {a});
      OneMoreTimes(j, |fresh_ - {a}|);
    }
  }

  /** Abel summation, one step: `j` divides the mass seen so far. */
  lemma HarmonicStep(size: real, more: real, mass: real, mass': real, j: real, width: real, h: real)
    requires j >= 1.0 && mass <= j * width && mass' >= mass + (j + 1.0) * more
    requires size <= mass / j + h - width
    ensures size + more <= mass' / (j + 1.0) + (h + width / (j + 1.0)) - width
  {
    var share := mass / j;
    assert share <= width;
    assert mass == share * j;
    assert mass / (j + 1.0) == share - share / (j + 1.0);
    assert share / (j + 1.0) <= width / (j + 1.0);
    assert mass' / (j + 1.0) >= mass / (j + 1.0) + more;
  }

  /** The entries of the last `j` buckets, when `b` buckets have been started. */
  ghost function Recent(table: Table, b: nat, j: nat): set<string> {
    Since(table, b - j)
  }

  lemma {:induction false} RecentBound(activities: seq<string>, width: nat, j: nat)
    requires width > 0 && activities != [] && 1 <= j <= Bucket(|activities|, width)
    ensures var t, b := TableAfter(activities, width), Bucket(|activities|, width);
            |Recent(t, b, j)| as real <=
              SumCounts(t, Recent(t, b, j)) as real / j as real + Harmonic(width, j) - width as real
  {
    hide TableAfter, Bucket, SumCounts;
    var t, b := TableAfter(activities, width), Bucket(|activities|, width);
    OldestCount(activities, width, j);
    GrowRecent(t, b, j);
    var size, size' := |Recent(t, b, j - 1)|, |Recent(t, b, j)|;
    var mass, mass' := SumCounts(t, Recent(t, b, j - 1)), SumCounts(t, Recent(t, b, j));
    if j == 1 {
      NothingRecent(activities, width);
    } else {
      RecentBound(activities, width, j - 1);
      RecentMass(activities, width, j - 1);
    }
    HarmonicStepNat(size, size', mass, mass', j, width);
  }

  lemma HarmonicUnfolds(width: nat, j: nat)
    requires j >= 1
    ensures Harmonic(width, 0) == 0.0
    ensures Harmonic(width, j) == Harmonic(width, j - 1) + width as real / j as real
  {}

  lemma RealProduct(a: nat, b: nat)
    ensures (a * b) as real == a as real * b as real
  {}

  /** The step of the summation over whole numbers; for `j` = 1 it starts from nothing. */
  lemma HarmonicStepNat(size: nat, size': nat, mass: nat, mass': nat, j: nat, width: nat)
    requires j >= 1 && size <= size' && mass' >= mass + j * (size' - size)
    requires if j == 1 then size == 0
             else mass <= (j - 1) * width
                  && size as real <= mass as real / (j - 1) as real + Harmonic(width, j - 1) - width as real
    ensures size' as real <= mass' as real / j as real + Harmonic(width, j) - width as real
  {
    hide Harmonic;
    HarmonicUnfolds(width, j);
    if j == 1 {
      assert 1.0 * (width as real) == width as real;
    } else {
      var more := size' - size;
      RealProduct(j, more);
      RealProduct(j - 1, width);
      HarmonicStep(size as real, more as real, mass as real, mass' as real, (j - 1) as real, width as real,
                   Harmonic(width, j - 1));
    }
  }

  lemma NothingRecent(activities: seq<string>, width: nat)
    requires width > 0 && activities != []
    ensures Recent(TableAfter(activities, width), Bucket(|activities|, width), 0) == {}
  {
    ErrorBound(activities, width);
  }

  /** One bucket further back, every additional entry counts at least `j` events. */
  lemma GrowRecent(t: Table, b: nat, j: nat)
    requires 1 <= j <= b
    requires forall a | a in Recent(t, b, j) - Recent(t, b, j - 1) :: t[a].count >= j
    ensures |Recent(t, b, j)| >= |Recent(t, b, j - 1)|
    ensures SumCounts(t, Recent(t, b, j)) >=
              SumCounts(t, Recent(t, b, j - 1)) + j * (|Recent(t, b, j)| - |Recent(t, b, j - 1)|)
  {
    hide SumCounts;
    var less, older := Recent(t, b, j - 1), Recent(t, b, j) - Recent(t, b, j - 1);
    SumAtLeast(t, less, older, j);
    assert Recent(t, b, j) == less + older;
    assert |less + older| == |less| + |older|;
  }

  /** The entries of the last `j` buckets count at most `j * width` events. */
  lemma RecentMass(activities: seq<string>, width: nat, j: nat)
    requires width > 0 && activities != [] && 1 <= j <= Bucket(|activities|, width)
    ensures var t, b := TableAfter(activities, width), Bucket(|activities|, width);
            SumCounts(t, Recent(t, b, j)) <= j * width
  {
    hide TableAfter, SumCounts;
    var b := Bucket(|activities|, width);
    BucketCovers(|activities|, width, b, j);
    CountsSince(activities, width, b - j);
  }

  lemma BucketCovers(n: nat, width: nat, b: nat, j: nat)
    requires width > 0 && n > 0 && b == Bucket(n, width) && 1 <= j <= b
    ensures 0 <= (b - j) * width < n <= (b - j) * width + j * width
  {
    hide Bucket;
    BucketStep(n, width);
    var q := (n - 1) / width;
    assert n - 1 == q * width + (n - 1) % width;
    Distribute(q, 1, width);
    Distribute(b - j, j, width);
    AtLeastOnce(j, width);
  }

  lemma Distribute(x: int, y: int, width: nat)
    ensures (x + y) * width == x * width + y * width
  {}

  lemma OldestCount(activities: seq<string>, width: nat, j: nat)
    requires width > 0 && activities != [] && 1 <= j <= Bucket(|activities|, width)
    ensures var t, b := TableAfter(activities, width), Bucket(|activities|, width);
            forall a | a in Recent(t, b, j) - Recent(t, b, j - 1) :: t[a].count >= j
  {
    var t, b := TableAfter(activities, width), Bucket(|activities|, width);
    BucketStep(|activities|, width);
    forall a | a in Recent(t, b, j) - Recent(t, b, j - 1) ensures t[a].count >= j {
      SurvivorsAreFrequent(activities, width, a);
    }
  }

  /** After any number of events the table holds at most width/1 + width/2 + ... + width/b
      entries, where b is the number of buckets started. */
  lemma SpaceBound(activities: seq<string>, width: nat)
    requires width > 0
    ensures |TableAfter(activities, width)| as real <= Harmonic(width, Bucket(|activities|, width))
  {
    var t, b := TableAfter(activities, width), Bucket(|activities|, width);
    if activities == [] {
      DivUnique(width - 1, width, 0, width - 1);
    } else {
      BucketStep(|activities|, width);
      RecentBound(activities, width, b);
      RecentMass(activities, width, b);
      assert Recent(t, b, b) == t.Keys;
      assert |t.Keys| == |t|;
      MassShare(SumCounts(t, t.Keys), b, width);
    }
  }

  lemma MassShare(mass: nat, b: nat, width: nat)
    requires b >= 1 && mass <= b * width
    ensures mass as real / b as real <= width as real
  {
    assert mass as real <= (b * width) as real == b as real * width as real;
  }
}
