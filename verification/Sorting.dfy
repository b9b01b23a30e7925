/** Stable sorting by a number, as Python's `sorted` with a key does it. */
module Sorting {
  /** A value with the number it is sorted by. */
  type Keyed<T> = (nat, T)

  function Insert<T>(s: seq<Keyed<T>>, x: Keyed<T>): seq<Keyed<T>> {
    if s == [] || s[|s| - 1].0 <= x.0 then s + [x]
    else Insert(s[..|s| - 1], x) + [s[|s| - 1]]
  }

  /** Insertion from the left; equal numbers keep their order. */
  function SortByNumber<T>(s: seq<Keyed<T>>): seq<Keyed<T>> {
    if s == [] then [] else Insert(SortByNumber(s[..|s| - 1]), s[|s| - 1])
  }

  ghost predicate Sorted<T>(s: seq<Keyed<T>>) {
    forall i, j | 0 <= i < j < |s| :: s[i].0 <= s[j].0
  }

  lemma SortedSnoc<T>(s: seq<Keyed<T>>, x: Keyed<T>)
    requires Sorted(s) && forall y | y in s :: y.0 <= x.0
    ensures Sorted(s + [x])
  {}

  lemma LastIsLargest<T>(s: seq<Keyed<T>>)
    requires Sorted(s) && s != []
    ensures Sorted(s[..|s| - 1]) && forall y | y in s :: y.0 <= s[|s| - 1].0
  {}

  lemma {:induction false} InsertKeeps<T>(s: seq<Keyed<T>>, x: Keyed<T>)
    ensures multiset(Insert(s, x)) == multiset(s) + multiset{x}
  {
    if s != [] && s[|s| - 1].0 > x.0 {
      InsertKeeps(s[..|s| - 1], x);
      assert s == s[..|s| - 1] + [s[|s| - 1]];
    }
  }

  lemma {:induction false} InsertSorts<T>(s: seq<Keyed<T>>, x: Keyed<T>)
    requires Sorted(s)
    ensures multiset(Insert(s, x)) == multiset(s) + multiset{x} && Sorted(Insert(s, x))
  {
    InsertKeeps(s, x);
    if s != [] {
      LastIsLargest(s);
      hide Sorted;
      var front, last := s[..|s| - 1], s[|s| - 1];
      if last.0 > x.0 {
        InsertSorts(front, x);
        forall y | y in Insert(front, x) ensures y.0 <= last.0 {
          assert y in multiset(Insert(front, x));
          assert y in front ==> y in s;
        }
        SortedSnoc(Insert(front, x), last);
      } else {
        SortedSnoc(s, x);
      }
    }
  }

  lemma {:induction false} SortSorts<T>(s: seq<Keyed<T>>)
    ensures multiset(SortByNumber(s)) == multiset(s) && Sorted(SortByNumber(s))
  {
    if s != [] {
      SortSorts(s[..|s| - 1]);
      assert s == s[..|s| - 1] + [s[|s| - 1]];
      InsertSorts(SortByNumber(s[..|s| - 1]), s[|s| - 1]);
    }
  }

  /** The entries with this number, in order. */
  function WithNumber<T>(s: seq<Keyed<T>>, n: nat): seq<Keyed<T>> {
    if s == [] then [] else
      WithNumber(s[..|s| - 1], n) + if s[|s| - 1].0 == n then [s[|s| - 1]] else []
  }

  lemma WithNumberSnoc<T>(s: seq<Keyed<T>>, x: Keyed<T>, n: nat)
    ensures WithNumber(s + [x], n) == WithNumber(s, n) + if x.0 == n then [x] else []
  {
    assert (s + [x])[..|s|] == s;
  }

  lemma {:induction false} InsertIsStable<T>(s: seq<Keyed<T>>, x: Keyed<T>, n: nat)
    ensures WithNumber(Insert(s, x), n) == WithNumber(s, n) + if x.0 == n then [x] else []
  {
    hide WithNumber;
    if s == [] || s[|s| - 1].0 <= x.0 {
      WithNumberSnoc(s, x, n);
    } else {
      var front, last := s[..|s| - 1], s[|s| - 1];
      InsertIsStable(front, x, n);
      assert s == front + [last];
      WithNumberSnoc(front, last, n);
      WithNumberSnoc(Insert(front, x), last, n);
    }
  }

  /** Entries with the same number keep their order. */
  lemma {:induction false} SortIsStable<T>(s: seq<Keyed<T>>, n: nat)
    ensures WithNumber(SortByNumber(s), n) == WithNumber(s, n)
  {
    if s != [] {
      SortIsStable(s[..|s| - 1], n);
      InsertIsStable(SortByNumber(s[..|s| - 1]), s[|s| - 1], n);
    }
  }

  ghost predicate StrictlySorted<T>(s: seq<Keyed<T>>) {
    forall i, j | 0 <= i < j < |s| :: s[i].0 < s[j].0
  }

  ghost function Elements<T>(s: seq<Keyed<T>>): set<Keyed<T>> {
    set x | x in s
  }

  lemma SameGreatest<T>(s: seq<Keyed<T>>, s': seq<Keyed<T>>)
    requires StrictlySorted(s) && StrictlySorted(s') && Elements(s) == Elements(s') && s != [] && s' != []
    ensures s[|s| - 1] == s'[|s'| - 1]
  {
    var n, n' := |s| - 1, |s'| - 1;
    assert s[n] in Elements(s');
    var i :| 0 <= i < |s'| && s'[i] == s[n];
    assert s'[n'] in Elements(s);
    var j :| 0 <= j < |s| && s[j] == s'[n'];
    assert i == n' && j == n;
  }

  lemma WithoutGreatest<T>(s: seq<Keyed<T>>)
    requires StrictlySorted(s) && s != []
    ensures StrictlySorted(s[..|s| - 1]) && Elements(s[..|s| - 1]) == Elements(s) - {s[|s| - 1]}
  {}

  lemma {:induction false} StrictlySortedUnique<T>(s: seq<Keyed<T>>, s': seq<Keyed<T>>)
    requires StrictlySorted(s) && StrictlySorted(s') && Elements(s) == Elements(s')
    ensures s == s'
  {
    assert s != [] ==> s[0] in Elements(s);
    assert s' != [] ==> s'[0] in Elements(s');
    if s != [] {
      SameGreatest(s, s');
      WithoutGreatest(s);
      WithoutGreatest(s');
      hide StrictlySorted, Elements;
      StrictlySortedUnique(s[..|s| - 1], s'[..|s'| - 1]);
      assert s == s[..|s| - 1] + [s[|s| - 1]] && s' == s'[..|s'| - 1] + [s'[|s'| - 1]];
    }
  }

  lemma StrictSnoc<T>(s: seq<Keyed<T>>, x: Keyed<T>)
    requires StrictlySorted(s) && forall y | y in s :: y.0 < x.0
    ensures StrictlySorted(s + [x]) && Elements(s + [x]) == Elements(s) + {x}
  {}

  lemma LastIsStrictlyLargest<T>(s: seq<Keyed<T>>)
    requires StrictlySorted(s) && s != []
    ensures StrictlySorted(s[..|s| - 1]) && forall y | y in s[..|s| - 1] :: y.0 < s[|s| - 1].0
    ensures Elements(s) == Elements(s[..|s| - 1]) + {s[|s| - 1]}
  {
    assert s == s[..|s| - 1] + [s[|s| - 1]];
  }

  lemma {:induction false} InsertStrict<T>(s: seq<Keyed<T>>, x: Keyed<T>)
    requires StrictlySorted(s) && forall y | y in s :: y.0 != x.0
    ensures StrictlySorted(Insert(s, x)) && Elements(Insert(s, x)) == Elements(s) + {x}
  {
    if s == [] {
      StrictSnoc(s, x);
    } else {
      LastIsStrictlyLargest(s);
      hide StrictlySorted;
      var front, last := s[..|s| - 1], s[|s| - 1];
      assert s == front + [last];
      if last.0 > x.0 {
        InsertStrict(front, x);
        forall y | y in Insert(front, x) ensures y.0 < last.0 {
          assert y in Elements(Insert(front, x));
        }
        StrictSnoc(Insert(front, x), last);
      } else {
        StrictSnoc(s, x);
      }
    }
  }

  lemma SameSize<T>(s: seq<T>, t: seq<T>)
    requires multiset(s) == multiset(t)
    ensures |s| == |t| && forall x :: x in s <==> x in t
  {
    assert |multiset(s)| == |s| && |multiset(t)| == |t|;
    forall x ensures x in s <==> x in t {
      assert x in s <==> x in multiset(s);
      assert x in t <==> x in multiset(t);
    }
  }

  lemma WithoutLast<T>(s: seq<T>, t: seq<T>)
    requires multiset(s) == multiset(t) && s != [] && t != [] && s[|s| - 1] == t[|t| - 1]
    ensures multiset(s[..|s| - 1]) == multiset(t[..|t| - 1])
  {
    assert s == s[..|s| - 1] + [s[|s| - 1]];
    assert t == t[..|t| - 1] + [t[|t| - 1]];
    assert multiset(s[..|s| - 1]) == multiset(s) - multiset{s[|s| - 1]};
  }

  lemma SameLast<T>(s: seq<Keyed<T>>, t: seq<Keyed<T>>)
    requires Sorted(s) && StrictlySorted(t) && |s| == |t| && s != [] && forall x :: x in s <==> x in t
    ensures s[|s| - 1] == t[|t| - 1]
  {
    var n := |s| - 1;
    assert s[n] in t && t[n] in s;
    var i :| 0 <= i <= n && t[i] == s[n];
    var j :| 0 <= j <= n && s[j] == t[n];
    assert s[j].0 <= s[n].0;
  }

  /** A sorted permutation of something strictly sorted is that itself. */
  lemma {:induction false} SortedUnique<T>(s: seq<Keyed<T>>, t: seq<Keyed<T>>)
    requires Sorted(s) && StrictlySorted(t) && multiset(s) == multiset(t)
    ensures s == t
  {
    SameSize(s, t);
    if s != [] {
      var n := |s| - 1;
      SameLast(s, t);
      WithoutLast(s, t);
      assert Sorted(s[..n]) && StrictlySorted(t[..n]);
      hide Sorted, StrictlySorted;
      SortedUnique(s[..n], t[..n]);
      assert s == s[..n] + [s[n]] && t == t[..n] + [t[n]];
    }
  }
}
