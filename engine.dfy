/** How the components fit together. The dashboard expands the filtered
    tasks over the chosen window and aggregates the calendar over the same
    window; the schedule page does both over the chosen window clamped to the
    range of dates the tasks cover. */
module Engine {
  import opened Records
  import OverlapFilter
  import CalendarExpander
  import Utilization

  /** The resource key the rows of booking `b` carry. */
  function BookingKey(b: Booking): Utilization.ResourceKey
  {
    Utilization.ResourceKey(b.task.resourceId, b.resource.name, b.resource.kind)
  }

  /** For a well-formed task and window, the overlap filter keeps the task
      exactly when the expander gives it at least one row. */
  lemma OverlapIffContributes(b: Booking, w: Window)
    requires b.task.start <= b.task.finish && w.lo <= w.hi
    ensures OverlapFilter.Overlaps(b.task, w) <==> CalendarExpander.BookingRows(b, Some(w.lo), Some(w.hi)) != []
  {
    var s := CalendarExpander.EffectiveStart(b.task, Some(w.lo));
    var e := CalendarExpander.EffectiveFinish(b.task, Some(w.hi));
    CalendarExpander.DayRowsShape(b, s, e);
  }

  /** A resource's busy days are the union of the clamped intervals of its bookings. */
  lemma BusyDaysAreClampedUnion(bs: seq<Booking>, lo: Option<Day>, hi: Option<Day>, k: Utilization.ResourceKey, d: Day)
    ensures d in Utilization.BusyDays(CalendarExpander.Calendar(bs, lo, hi), k) <==>
      exists b :: b in bs && BookingKey(b) == k
                && Within(d, CalendarExpander.EffectiveStart(b.task, lo), CalendarExpander.EffectiveFinish(b.task, hi))
  {
    var cal := CalendarExpander.Calendar(bs, lo, hi);
    if d in Utilization.BusyDays(cal, k) {
      var o :| o in cal && Utilization.KeyOf(o) == k && o.date == d;
      CalendarExpander.CalendarMembers(bs, lo, hi, o);
    }
    if exists b :: b in bs && BookingKey(b) == k
                && Within(d, CalendarExpander.EffectiveStart(b.task, lo), CalendarExpander.EffectiveFinish(b.task, hi)) {
      var b :| b in bs && BookingKey(b) == k
                && Within(d, CalendarExpander.EffectiveStart(b.task, lo), CalendarExpander.EffectiveFinish(b.task, hi));
      var o := CalendarExpander.RowFor(b, d);
      CalendarExpander.CalendarMembers(bs, lo, hi, o);
      assert o in cal && Utilization.KeyOf(o) == k;
    }
  }

  /** Utilization over the window the calendar was expanded with stays within
      [0.0, 100.0], with busy days between one and the window length. */
  lemma DashboardUtilizationBounds(bs: seq<Booking>, w: Window)
    ensures forall row :: row in Utilization.ComputeUtilization(CalendarExpander.Calendar(bs, Some(w.lo), Some(w.hi)), w.lo, w.hi) ==>
      1 <= row.busyDays <= row.availableDays && row.tenths <= 1000
  {
    var cal := CalendarExpander.Calendar(bs, Some(w.lo), Some(w.hi));
    CalendarExpander.CalendarRowsInWindow(bs, Some(w.lo), Some(w.hi));
    Utilization.UtilizationBounds(cal, w.lo, w.hi);
  }

  /** No tasks give no calendar rows and an empty utilization table. */
  lemma EmptyPipeline(lo: Option<Day>, hi: Option<Day>, windowStart: Day, windowEnd: Day)
    ensures CalendarExpander.Calendar([], lo, hi) == []
    ensures Utilization.ComputeUtilization(CalendarExpander.Calendar([], lo, hi), windowStart, windowEnd) == []
  {
  }

  /** A task of days 10..20 against the window 15..25 is kept and expands to
      the six days 15..20. */
  lemma PartialOverlapExample(b: Booking)
    requires b.task.start == 10 && b.task.finish == 20
    ensures OverlapFilter.Overlaps(b.task, Window(15, 25))
    ensures |CalendarExpander.BookingRows(b, Some(15), Some(25))| == 6
    ensures forall k :: 0 <= k < 6 ==> CalendarExpander.BookingRows(b, Some(15), Some(25))[k].date == 15 + k
  {
    CalendarExpander.DayRowsShape(b, 15, 20);
  }

  /** The calendar of one booking of days 4..15 in the window 1..31 holds one
      resource, busy on exactly the days 4..15. */
  lemma CableLayCalendar(b: Booking)
    requires b.task.start == 4 && b.task.finish == 15
    ensures Utilization.BusyDays(CalendarExpander.Calendar([b], Some(1), Some(31)), BookingKey(b)) == Utilization.WindowDays(4, 15)
    ensures Utilization.Resources(CalendarExpander.Calendar([b], Some(1), Some(31))) == {BookingKey(b)}
  {
    var cal := CalendarExpander.Calendar([b], Some(1), Some(31));
    var k := BookingKey(b);
    assert CalendarExpander.EffectiveStart(b.task, Some(1)) == 4;
    assert CalendarExpander.EffectiveFinish(b.task, Some(31)) == 15;
    forall d ensures d in Utilization.BusyDays(cal, k) <==> d in Utilization.WindowDays(4, 15) {
      BusyDaysAreClampedUnion([b], Some(1), Some(31), k, d);
    }
    forall o | o in cal ensures Utilization.KeyOf(o) == k {
      CalendarExpander.CalendarMembers([b], Some(1), Some(31), o);
    }
    CalendarExpander.CalendarMembers([b], Some(1), Some(31), CalendarExpander.RowFor(b, 4));
    assert Utilization.KeyOf(CalendarExpander.RowFor(b, 4)) == k;
  }

  /** A task of days 4..15 in a 31-day window 1..31: 12 busy days, 38.7 %. */
  lemma CableLayExample(b: Booking)
    requires b.task.start == 4 && b.task.finish == 15
    ensures Utilization.ComputeUtilization(CalendarExpander.Calendar([b], Some(1), Some(31)), 1, 31)
         == [Utilization.UtilRow(BookingKey(b), 12, 31, 387)]
  {
    var cal := CalendarExpander.Calendar([b], Some(1), Some(31));
    CableLayCalendar(b);
    Utilization.WindowDaysCount(4, 15);
    var r := Utilization.ComputeUtilization(cal, 1, 31);
    assert |r| == 1 && r[0] in r;
    assert r[0].key == BookingKey(b);
    assert r[0].busyDays == 12;
    assert Utilization.RoundTenths(12, 31) == 387;
    assert r[0] == Utilization.UtilRow(BookingKey(b), 12, 31, 387);
  }

  /** The schedule page expands and aggregates over the chosen window clamped
      to the data range. The calendar is the one the chosen window gives, but
      every row's available days are the clamped window's length, which is at
      most the chosen window's. */
  lemma SchedulePageLoad(tasks: seq<Task>, bs: seq<Booking>, today: Day, w: Window)
    requires forall b :: b in bs ==> b.task in tasks
    ensures var c := OverlapFilter.ClampToData(w, OverlapFilter.DataRange(tasks, today));
      && CalendarExpander.Calendar(bs, Some(c.lo), Some(c.hi)) == CalendarExpander.Calendar(bs, Some(w.lo), Some(w.hi))
      && forall row :: row in Utilization.ComputeUtilization(CalendarExpander.Calendar(bs, Some(c.lo), Some(c.hi)), c.lo, c.hi) ==>
           row.availableDays == c.hi - c.lo + 1 <= w.hi - w.lo + 1
  {
    var range := OverlapFilter.DataRange(tasks, today);
    var c := OverlapFilter.ClampToData(w, range);
    forall b | b in bs
      ensures CalendarExpander.EffectiveStart(b.task, Some(c.lo)) == CalendarExpander.EffectiveStart(b.task, Some(w.lo))
      ensures CalendarExpander.EffectiveFinish(b.task, Some(c.hi)) == CalendarExpander.EffectiveFinish(b.task, Some(w.hi))
    {
      assert range.lo <= b.task.start && b.task.finish <= range.hi;
    }
    CalendarExpander.SameClampsSameCalendar(bs, Some(c.lo), Some(c.hi), Some(w.lo), Some(w.hi));
  }

  /** On the schedule page, the task of days 4..15 as the only task, with the
      chosen window 1..31: the window is clamped to 4..15 and the table is one
      row of 12 busy days out of 12, 100.0 %. */
  lemma SchedulePageCableLay(b: Booking, today: Day)
    requires b.task.start == 4 && b.task.finish == 15
    ensures OverlapFilter.ClampToData(Window(1, 31), OverlapFilter.DataRange([b.task], today)) == Window(4, 15)
    ensures Utilization.ComputeUtilization(CalendarExpander.Calendar([b], Some(4), Some(15)), 4, 15)
         == [Utilization.UtilRow(BookingKey(b), 12, 12, 1000)]
  {
    SchedulePageLoad([b.task], [b], today, Window(1, 31));
    var cal := CalendarExpander.Calendar([b], Some(4), Some(15));
    assert cal == CalendarExpander.Calendar([b], Some(1), Some(31));
    CableLayCalendar(b);
    Utilization.WindowDaysCount(4, 15);
    var r := Utilization.ComputeUtilization(cal, 4, 15);
    assert |r| == 1 && r[0] in r;
    assert r[0].key == BookingKey(b);
    assert r[0].busyDays == 12;
    assert Utilization.RoundTenths(12, 12) == 1000;
    assert r[0] == Utilization.UtilRow(BookingKey(b), 12, 12, 1000);
  }
}
