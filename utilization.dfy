/** The utilization calculator: per resource, the number of distinct busy
    days in the calendar, the number of days in the window, and the busy
    share as a percentage with one decimal, kept here as integer tenths of a
    percent. Rows come out sorted by utilization, highest first. */
module Utilization {
  import opened Records

  /** The columns the calendar is grouped by. */
  datatype ResourceKey = ResourceKey(id: int, name: string, kind: string)

  /** One resource's line: busy days, available days, utilization in tenths of a percent. */
  datatype UtilRow = UtilRow(key: ResourceKey, busyDays: nat, availableDays: int, tenths: nat)

  /** The watchlist threshold, 80.0 %, in tenths of a percent. */
  const WATCHLIST_THRESHOLD: nat := 800

  function KeyOf(o: Occupancy): ResourceKey
  {
    ResourceKey(o.resourceId, o.resourceName, o.resourceType)
  }

  /** The distinct dates on which resource `k` has at least one row. */
  function BusyDays(cal: seq<Occupancy>, k: ResourceKey): set<Day>
  {
    set o | o in cal && KeyOf(o) == k :: o.date
  }

  /** The resources that appear in the calendar. */
  function Resources(cal: seq<Occupancy>): set<ResourceKey>
  {
    set o | o in cal :: KeyOf(o)
  }

  /** The days of the inclusive window [lo, hi] (`Within` gives the
      comprehension a trigger). */
  function WindowDays(lo: Day, hi: Day): set<Day>
  {
    set d | lo <= d <= hi && Within(d, lo, hi)
  }

  /** A window [lo, hi] with lo <= hi + 1 has hi - lo + 1 days. */
  lemma {:induction false} WindowDaysCount(lo: Day, hi: Day)
    requires lo <= hi + 1
    decreases hi - lo + 1
    ensures |WindowDays(lo, hi)| == hi - lo + 1
  {
    if lo <= hi {
      assert WindowDays(lo, hi) == WindowDays(lo, hi - 1) + {hi};
      WindowDaysCount(lo, hi - 1);
    } else {
      assert WindowDays(lo, hi) == {};
    }
  }

  lemma SubsetCount<T>(a: set<T>, b: set<T>)
    requires a <= b
    ensures |a| <= |b|
    ensures |a| == |b| ==> a == b
  {
    assert b == a + (b - a);
    assert a * (b - a) == {};
    if |a| == |b| {
      assert |b - a| == 0;
      assert b - a == {};
    }
  }

  /** The resources of the calendar, each once, in order of first appearance. */
  function Keys(cal: seq<Occupancy>): (r: seq<ResourceKey>)
    ensures forall i, j :: 0 <= i < j < |r| ==> r[i] != r[j]
    ensures forall k :: k in r <==> k in Resources(cal)
  {
    if cal == [] then []
    else
      var init, last := cal[..|cal| - 1], cal[|cal| - 1];
      assert Resources(cal) == Resources(init) + {KeyOf(last)} by {
        assert cal == init + [last];
      }
      var ks := Keys(init);
      if KeyOf(last) in ks then ks else ks + [KeyOf(last)]
  }

  /** A sequence without repetitions has as many elements as its set. */
  lemma {:induction false} DistinctCount(s: seq<ResourceKey>)
    requires forall i, j :: 0 <= i < j < |s| ==> s[i] != s[j]
    ensures |set k | k in s| == |s|
  {
    if s != [] {
      var init, last := s[..|s| - 1], s[|s| - 1];
      assert s == init + [last];
      DistinctCount(init);
      assert (set k | k in s) == (set k | k in init) + {last};
      assert last !in (set k | k in init);
    }
  }

  /** busy / total * 100 rounded to one decimal, in tenths of a percent:
      the nearest integer to 1000 * busy / total, an exact tie going to the
      even neighbour, the rule NumPy applies behind pandas' `round`. */
  function RoundTenths(busy: nat, total: int): (r: nat)
    requires total > 0
    ensures 2 * (r * total) <= 2000 * busy + total
    ensures 2000 * busy <= 2 * (r * total) + total
    ensures 2 * (r * total) == 2000 * busy + total || 2000 * busy == 2 * (r * total) + total ==> r % 2 == 0
  {
    var x := 1000 * busy;
    var q, m := x / total, x % total;
    DivModFacts(x, total);
    MulSucc(q, total);
    if 2 * m > total then q + 1
    else if 2 * m < total then q
    else if q % 2 == 0 then q
    else q + 1
  }

  lemma DivModFacts(x: nat, total: int)
    requires total > 0
    ensures x == (x / total) * total + x % total && 0 <= x % total < total && x / total >= 0
  {
  }

  lemma MulSucc(q: int, total: int)
    ensures (q + 1) * total == q * total + total
  {
  }

  lemma MulMonotone(a: int, b: int, c: int)
    requires a <= b && c >= 0
    ensures a * c <= b * c
  {
  }

  /** What the rounded utilization says about busy days: at most 100.0 %;
      exactly 100.0 % when every day is busy; and, in windows shorter than
      2000 days, 100.0 % only when every day is busy and never 0.0 % for a
      resource with a busy day. */
  lemma RoundTenthsBounds(busy: nat, total: int)
    requires 0 < total && busy <= total
    ensures RoundTenths(busy, total) <= 1000
    ensures busy == total ==> RoundTenths(busy, total) == 1000
    ensures busy == 0 ==> RoundTenths(busy, total) == 0
    ensures total < 2000 ==> (RoundTenths(busy, total) == 1000 <==> busy == total)
    ensures total < 2000 && busy > 0 ==> RoundTenths(busy, total) > 0
  {
    var r := RoundTenths(busy, total);
    if r >= 1001 {
      MulMonotone(1001, r, total);
      assert false;
    }
    if busy == total {
      if r <= 999 {
        MulMonotone(r, 999, total);
        assert false;
      }
    }
    if busy == 0 && r >= 1 {
      MulMonotone(1, r, total);
      assert false;
    }
  }

  /** In a window of 2001 days, a resource idle on one day still rounds to 100.0 %. */
  lemma OneIdleDayCanRoundToFull()
    ensures RoundTenths(2000, 2001) == 1000
  {
  }

  /** One resource's line for a window of `total` days. */
  function UtilizationRow(cal: seq<Occupancy>, k: ResourceKey, total: int): UtilRow
    requires total > 0
  {
    var busy := |BusyDays(cal, k)|;
    UtilRow(k, busy, total, RoundTenths(busy, total))
  }

  predicate SortedByUtilization(s: seq<UtilRow>)
  {
    forall i, j :: 0 <= i < j < |s| ==> s[i].tenths >= s[j].tenths
  }

  /** Places `x` after every row whose utilization is at least its own. */
  function Insert(x: UtilRow, s: seq<UtilRow>): (r: seq<UtilRow>)
    ensures multiset(r) == multiset(s) + multiset{x}
  {
    if s == [] then [x]
    else if s[0].tenths >= x.tenths then
      assert s == [s[0]] + s[1..];
      [s[0]] + Insert(x, s[1..])
    else
      [x] + s
  }

  /** Insert adds `x` and nothing else. */
  lemma {:induction false} InsertElements(x: UtilRow, s: seq<UtilRow>)
    ensures forall e :: e in Insert(x, s) ==> e == x || e in s
  {
    if s != [] && s[0].tenths >= x.tenths {
      InsertElements(x, s[1..]);
      assert forall e :: e in s[1..] ==> e in s;
    }
  }

  /** Inserting into rows sorted by utilization keeps them sorted. */
  lemma {:induction false} InsertKeepsSorted(x: UtilRow, s: seq<UtilRow>)
    requires SortedByUtilization(s)
    ensures SortedByUtilization(Insert(x, s))
  {
    if s != [] && s[0].tenths >= x.tenths {
      var rest := Insert(x, s[1..]);
      InsertKeepsSorted(x, s[1..]);
      InsertElements(x, s[1..]);
      assert forall e :: e in s[1..] ==> s[0].tenths >= e.tenths;
      var r := [s[0]] + rest;
      assert r == Insert(x, s);
      forall i, j | 0 <= i < j < |r| ensures r[i].tenths >= r[j].tenths {
        if i == 0 {
          assert r[j] == rest[j - 1];
          assert r[j] in rest;
        } else {
          assert r[i] == rest[i - 1] && r[j] == rest[j - 1];
        }
      }
    }
  }

  /** Sorts rows by utilization, highest first. */
  function SortByUtilization(s: seq<UtilRow>): (r: seq<UtilRow>)
    ensures SortedByUtilization(r)
    ensures multiset(r) == multiset(s)
  {
    if s == [] then []
    else
      assert s == s[..|s| - 1] + [s[|s| - 1]];
      InsertKeepsSorted(s[|s| - 1], SortByUtilization(s[..|s| - 1]));
      Insert(s[|s| - 1], SortByUtilization(s[..|s| - 1]))
  }

  /** The unsorted table: one line per resource, in order of first appearance. */
  function UtilizationRows(cal: seq<Occupancy>, total: int): (rows: seq<UtilRow>)
    requires total > 0
    ensures |rows| == |Resources(cal)|
    ensures forall row :: row in rows ==> row.key in Resources(cal) && row == UtilizationRow(cal, row.key, total)
    ensures forall k :: k in Resources(cal) ==> UtilizationRow(cal, k, total) in rows
  {
    var keys := Keys(cal);
    DistinctCount(keys);
    assert (set k | k in keys) == Resources(cal);
    var rows := seq(|keys|, i requires 0 <= i < |keys| => UtilizationRow(cal, keys[i], total));
    assert forall k :: k in Resources(cal) ==> UtilizationRow(cal, k, total) in rows by {
      forall k | k in Resources(cal) ensures UtilizationRow(cal, k, total) in rows {
        var i :| 0 <= i < |keys| && keys[i] == k;
        assert rows[i] == UtilizationRow(cal, k, total);
      }
    }
    rows
  }

  /** Sorting keeps the length and the rows. */
  lemma SortKeepsRows(s: seq<UtilRow>)
    ensures |SortByUtilization(s)| == |s|
    ensures forall row :: row in SortByUtilization(s) <==> row in s
  {
    var r := SortByUtilization(s);
    assert |multiset(r)| == |multiset(s)|;
    forall row ensures row in r <==> row in s {
      assert row in r <==> row in multiset(r);
    }
  }

  /** The utilization table of a calendar for the window [windowStart, windowEnd]. */
  function ComputeUtilization(cal: seq<Occupancy>, windowStart: Day, windowEnd: Day): (r: seq<UtilRow>)
    ensures r == [] <==> cal == [] || windowEnd - windowStart + 1 <= 0
    ensures SortedByUtilization(r)
    ensures forall row :: row in r ==>
      && row.availableDays == windowEnd - windowStart + 1 > 0
      && row.busyDays == |BusyDays(cal, row.key)|
      && row.tenths == RoundTenths(row.busyDays, row.availableDays)
    ensures r != [] ==> |r| == |Resources(cal)|
    ensures r != [] ==> forall k :: k in Resources(cal) <==> exists row :: row in r && row.key == k
  {
    if cal == [] then []
    else
      var total := windowEnd - windowStart + 1;
      if total <= 0 then []
      else
        var rows := UtilizationRows(cal, total);
        SortKeepsRows(rows);
        assert KeyOf(cal[0]) in Resources(cal);
        SortByUtilization(rows)
  }

  /** A resource of a calendar that lies inside the window is busy on at
      least one and at most all of the window's days, and on all of them
      exactly when its busy-day count equals the window length. */
  lemma BusyDaysBounds(cal: seq<Occupancy>, windowStart: Day, windowEnd: Day, k: ResourceKey)
    requires forall o :: o in cal ==> Within(o.date, windowStart, windowEnd)
    requires k in Resources(cal)
    ensures 1 <= |BusyDays(cal, k)| <= windowEnd - windowStart + 1
    ensures |BusyDays(cal, k)| == windowEnd - windowStart + 1 <==> WindowDays(windowStart, windowEnd) <= BusyDays(cal, k)
  {
    var busy := BusyDays(cal, k);
    var window := WindowDays(windowStart, windowEnd);
    var o :| o in cal && KeyOf(o) == k;
    assert o.date in busy;
    assert busy <= window;
    WindowDaysCount(windowStart, windowEnd);
    SubsetCount(busy, window);
    if window <= busy {
      assert busy == window;
    }
  }

  /** Every window day is busy exactly when busy days equal available days;
      utilization stays within [0.0, 100.0] and reaches 100.0 % when every day
      is busy; every listed resource has at least one busy day. */
  lemma UtilizationBounds(cal: seq<Occupancy>, windowStart: Day, windowEnd: Day)
    requires forall o :: o in cal ==> Within(o.date, windowStart, windowEnd)
    ensures forall row :: row in ComputeUtilization(cal, windowStart, windowEnd) ==>
      && 1 <= row.busyDays <= row.availableDays
      && row.tenths <= 1000
      && (row.busyDays == row.availableDays <==> WindowDays(windowStart, windowEnd) <= BusyDays(cal, row.key))
      && (row.busyDays == row.availableDays ==> row.tenths == 1000)
      && (row.availableDays < 2000 ==> (row.tenths == 1000 <==> row.busyDays == row.availableDays) && row.tenths > 0)
  {
    var r := ComputeUtilization(cal, windowStart, windowEnd);
    forall row | row in r
      ensures 1 <= row.busyDays <= row.availableDays
      ensures row.busyDays == row.availableDays <==> WindowDays(windowStart, windowEnd) <= BusyDays(cal, row.key)
      ensures row.tenths <= 1000
      ensures row.busyDays == row.availableDays ==> row.tenths == 1000
      ensures row.availableDays < 2000 ==> (row.tenths == 1000 <==> row.busyDays == row.availableDays) && row.tenths > 0
    {
      BusyDaysBounds(cal, windowStart, windowEnd, row.key);
      RoundTenthsBounds(row.busyDays, row.availableDays);
    }
  }

  /** A second row for a resource on a day it is already busy leaves its busy
      days unchanged: overlapping tasks count a day once. */
  lemma SameDayCountsOnce(cal: seq<Occupancy>, o: Occupancy, k: ResourceKey)
    requires o.date in BusyDays(cal, KeyOf(o))
    ensures BusyDays(cal + [o], k) == BusyDays(cal, k)
  {
    assert forall p :: p in cal + [o] <==> p in cal || p == o;
  }

  /** The rows at or above the watchlist threshold, in their order. */
  function Watchlist(util: seq<UtilRow>): (r: seq<UtilRow>)
    ensures forall row :: row in r <==> row in util && row.tenths >= WATCHLIST_THRESHOLD
    ensures SortedByUtilization(util) ==> SortedByUtilization(r)
    ensures |r| <= |util|
  {
    if util == [] then []
    else
      var rest := Watchlist(util[1..]);
      assert forall row :: row in util[1..] ==> row in util;
      assert forall row :: row in util <==> row == util[0] || row in util[1..];
      if util[0].tenths >= WATCHLIST_THRESHOLD then [util[0]] + rest else rest
  }

  /** Each row at or above the threshold occurs in the watchlist as often as
      in the table, and any other row not at all. */
  lemma {:induction false} WatchlistCounts(util: seq<UtilRow>, row: UtilRow)
    ensures multiset(Watchlist(util))[row] == if row.tenths >= WATCHLIST_THRESHOLD then multiset(util)[row] else 0
  {
    if util != [] {
      WatchlistCounts(util[1..], row);
      assert util == [util[0]] + util[1..];
    }
  }

  /** The watchlist of a concatenation is the watchlists of the parts: rows
      keep their order. */
  lemma {:induction false} WatchlistDistributes(a: seq<UtilRow>, b: seq<UtilRow>)
    ensures Watchlist(a + b) == Watchlist(a) + Watchlist(b)
  {
    if a == [] {
      assert a + b == b;
    } else {
      var ab := a + b;
      assert ab[0] == a[0] && ab[1..] == a[1..] + b;
      WatchlistDistributes(a[1..], b);
    }
  }
}
