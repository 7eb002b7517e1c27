/**
 * Enumerable.OrderBy(p => p.Start) on a channel's listing: a stable sort by
 * start time, modelled as insertion sort.
 */
module Sorting {
  import opened DateTimes
  import opened Contracts

  predicate SortedByStart(s: seq<Programme>)
  {
    forall i, j :: 0 <= i < j < |s| ==> s[i].start <= s[j].start
  }

  /** Puts `x` in front of the first entry that does not start earlier than it. */
  function Insert(x: Programme, s: seq<Programme>): (r: seq<Programme>)
    ensures |r| == |s| + 1
  {
    if s == [] || x.start <= s[0].start then [x] + s
    else [s[0]] + Insert(x, s[1..])
  }

  /** The listing ordered by start; entries with equal starts keep their order. */
  function SortByStart(s: seq<Programme>): (r: seq<Programme>)
    ensures |r| == |s|
  {
    if s == [] then [] else Insert(s[0], SortByStart(s[1..]))
  }

  /** The entries of `s` that start at `t`, in order. */
  function StartingAt(s: seq<Programme>, t: DateTime): seq<Programme>
  {
    if s == [] then []
    else (if s[0].start == t then [s[0]] else []) + StartingAt(s[1..], t)
  }

  lemma {:induction false} InsertPermutes(x: Programme, s: seq<Programme>)
    ensures multiset(Insert(x, s)) == multiset(s) + multiset{x}
  {
    if !(s == [] || x.start <= s[0].start) {
      InsertPermutes(x, s[1..]);
      assert s == [s[0]] + s[1..];
    }
  }

  lemma SortedTail(s: seq<Programme>)
    requires s != [] && SortedByStart(s)
    ensures SortedByStart(s[1..])
  {
    forall i, j | 0 <= i < j < |s[1..]|
      ensures s[1..][i].start <= s[1..][j].start
    {
      assert s[1..][i] == s[i + 1] && s[1..][j] == s[j + 1];
    }
  }

  lemma {:induction false} InsertSorted(x: Programme, s: seq<Programme>)
    requires SortedByStart(s)
    ensures SortedByStart(Insert(x, s))
  {
    if !(s == [] || x.start <= s[0].start) {
      SortedTail(s);
      InsertSorted(x, s[1..]);
      InsertPermutes(x, s[1..]);
      var rest := Insert(x, s[1..]);
      assert Insert(x, s) == [s[0]] + rest;
      forall j | 0 <= j < |rest|
        ensures s[0].start <= rest[j].start
      {
        var e := rest[j];
        assert e in multiset(rest);
        if e != x {
          assert e in multiset(s[1..]);
          var k :| 0 <= k < |s[1..]| && s[1..][k] == e;
          assert s[k + 1] == e;
        }
      }
    }
  }

  lemma {:induction false} InsertStartingAt(x: Programme, s: seq<Programme>, t: DateTime)
    ensures StartingAt(Insert(x, s), t) == (if x.start == t then [x] else []) + StartingAt(s, t)
  {
    if s == [] || x.start <= s[0].start {
      assert ([x] + s)[1..] == s;
    } else {
      InsertStartingAt(x, s[1..], t);
      var rest := Insert(x, s[1..]);
      assert ([s[0]] + rest)[1..] == rest;
      assert s[0].start == t ==> x.start != t;
    }
  }

  /** The sorted listing is ordered by start ... */
  lemma {:induction false} SortByStartSorted(s: seq<Programme>)
    ensures SortedByStart(SortByStart(s))
  {
    if s != [] {
      SortByStartSorted(s[1..]);
      InsertSorted(s[0], SortByStart(s[1..]));
    }
  }

  /** ... holds the same entries ... */
  lemma {:induction false} SortByStartPermutes(s: seq<Programme>)
    ensures multiset(SortByStart(s)) == multiset(s)
  {
    if s != [] {
      SortByStartPermutes(s[1..]);
      InsertPermutes(s[0], SortByStart(s[1..]));
      assert s == [s[0]] + s[1..];
    }
  }

  /** ... and keeps the order of the entries that start at the same time (OrderBy is stable). */
  lemma {:induction false} SortByStartStable(s: seq<Programme>, t: DateTime)
    ensures StartingAt(SortByStart(s), t) == StartingAt(s, t)
  {
    if s != [] {
      SortByStartStable(s[1..], t);
      InsertStartingAt(s[0], SortByStart(s[1..]), t);
    }
  }

  /** An entry starting at `t` shows up among the entries starting at `t`. */
  lemma {:induction false} StartingAtHolds(s: seq<Programme>, i: nat)
    requires i < |s|
    ensures StartingAt(s, s[i].start) != []
  {
    if i > 0 {
      assert s[1..][i - 1] == s[i];
      StartingAtHolds(s[1..], i - 1);
    }
  }

  /** Whatever starts at `t` is an entry of the listing. */
  lemma {:induction false} StartingAtFrom(s: seq<Programme>, t: DateTime)
    requires StartingAt(s, t) != []
    ensures exists i :: 0 <= i < |s| && s[i].start == t
  {
    if s[0].start != t {
      StartingAtFrom(s[1..], t);
      var i :| 0 <= i < |s[1..]| && s[1..][i].start == t;
      assert s[i + 1].start == t;
    }
  }

  /**
   * Two listings ordered by start that agree, for every start time, on the
   * entries starting then and their order, are the same listing.
   */
  lemma {:induction false} SortedArrangementUnique(a: seq<Programme>, b: seq<Programme>)
    requires SortedByStart(a) && SortedByStart(b)
    requires forall t :: StartingAt(a, t) == StartingAt(b, t)
    ensures a == b
  {
    if a == [] {
      if b != [] {
        StartingAtHolds(b, 0);
        assert false;
      }
    } else if b == [] {
      StartingAtHolds(a, 0);
      assert false;
    } else {
      var t0, u0 := a[0].start, b[0].start;
      StartingAtHolds(a, 0);
      StartingAtHolds(b, 0);
      assert StartingAt(b, t0) != [];
      StartingAtFrom(b, t0);
      StartingAtFrom(a, u0);
      assert t0 == u0;
      assert StartingAt(a, t0)[0] == a[0];
      assert StartingAt(b, t0)[0] == b[0];
      forall t
        ensures StartingAt(a[1..], t) == StartingAt(b[1..], t)
      {
        if t0 == t {
          assert StartingAt(a[1..], t) == StartingAt(a, t)[1..];
          assert StartingAt(b[1..], t) == StartingAt(b, t)[1..];
        } else {
          assert StartingAt(a[1..], t) == StartingAt(a, t);
          assert StartingAt(b[1..], t) == StartingAt(b, t);
        }
      }
      SortedTail(a);
      SortedTail(b);
      SortedArrangementUnique(a[1..], b[1..]);
      assert a == [a[0]] + a[1..] && b == [b[0]] + b[1..];
    }
  }

  /**
   * The sorted listing depends only on which entries start when, and in
   * which order: listings that differ only in how entries with different
   * starts are interleaved sort to the same listing.
   */
  lemma SortIgnoresInterleaving(s: seq<Programme>, u: seq<Programme>)
    requires forall t :: StartingAt(s, t) == StartingAt(u, t)
    ensures SortByStart(s) == SortByStart(u)
  {
    SortByStartSorted(s);
    SortByStartSorted(u);
    forall t
      ensures StartingAt(SortByStart(s), t) == StartingAt(SortByStart(u), t)
    {
      SortByStartStable(s, t);
      SortByStartStable(u, t);
    }
    SortedArrangementUnique(SortByStart(s), SortByStart(u));
  }

  /** A listing already in start order is left as it is. */
  lemma SortOfSorted(s: seq<Programme>)
    requires SortedByStart(s)
    ensures SortByStart(s) == s
  {
    SortByStartSorted(s);
    forall t
      ensures StartingAt(SortByStart(s), t) == StartingAt(s, t)
    {
      SortByStartStable(s, t);
    }
    SortedArrangementUnique(SortByStart(s), s);
  }
}
