/** The calendar expander: one occupancy row per task per calendar day of the
    task's interval clamped to an optional window. */
module CalendarExpander {
  import opened Records

  /** The task's start, raised to the window's start when one is given. */
  function EffectiveStart(t: Task, lo: Option<Day>): Day
  {
    if lo.Some? then Max(t.start, lo.value) else t.start
  }

  /** The task's finish, lowered to the window's end when one is given. */
  function EffectiveFinish(t: Task, hi: Option<Day>): Day
  {
    if hi.Some? then Min(t.finish, hi.value) else t.finish
  }

  /** The occupancy row of booking `b` on day `d`. */
  function RowFor(b: Booking, d: Day): Occupancy
  {
    Occupancy(d, b.task.resourceId, b.resource.name, b.resource.kind, b.task.status, b.task.title)
  }

  /** The rows of `b` for the days from .. to, in date order. */
  function DayRows(b: Booking, from: Day, to: Day): seq<Occupancy>
    decreases to - from
  {
    if from > to then [] else DayRows(b, from, to - 1) + [RowFor(b, to)]
  }

  /** The rows one booking contributes: none when its clamped start is after
      its clamped finish. */
  function BookingRows(b: Booking, lo: Option<Day>, hi: Option<Day>): (r: seq<Occupancy>)
    ensures var start, end := EffectiveStart(b.task, lo), EffectiveFinish(b.task, hi);
      && |r| == (if start <= end then end - start + 1 else 0)
      && forall k :: 0 <= k < |r| ==> r[k] == RowFor(b, start + k)
  {
    var start, end := EffectiveStart(b.task, lo), EffectiveFinish(b.task, hi);
    DayRowsShape(b, start, end);
    if start > end then [] else DayRows(b, start, end)
  }

  /** The whole calendar: the rows of each booking in turn. */
  function Calendar(bs: seq<Booking>, lo: Option<Day>, hi: Option<Day>): seq<Occupancy>
  {
    if bs == [] then [] else Calendar(bs[..|bs| - 1], lo, hi) + BookingRows(bs[|bs| - 1], lo, hi)
  }

  /** Expands the bookings into the calendar, row by row. */
  method ExpandToCalendar(bs: seq<Booking>, lo: Option<Day>, hi: Option<Day>) returns (rows: seq<Occupancy>)
    ensures rows == Calendar(bs, lo, hi)
  {
    rows := [];
    if |bs| == 0 {
      return;
    }
    for i := 0 to |bs|
      invariant rows == Calendar(bs[..i], lo, hi)
    {
      var b := bs[i];
      var start, end := b.task.start, b.task.finish;
      if lo.Some? {
        start := Max(start, lo.value);
      }
      if hi.Some? {
        end := Min(end, hi.value);
      }
      assert bs[..i + 1][..i] == bs[..i];
      if start <= end {
        var d := start;
        while d <= end
          invariant start <= d <= end + 1
          invariant rows == Calendar(bs[..i], lo, hi) + DayRows(b, start, d - 1)
        {
          rows := rows + [RowFor(b, d)];
          d := d + 1;
        }
      }
    }
    assert bs[..|bs|] == bs;
  }

  /** DayRows holds exactly one row per day of [from, to], consecutive and
      without gaps. */
  lemma {:induction false} DayRowsShape(b: Booking, from: Day, to: Day)
    decreases to - from
    ensures |DayRows(b, from, to)| == (if from <= to then to - from + 1 else 0)
    ensures forall k :: 0 <= k < |DayRows(b, from, to)| ==> DayRows(b, from, to)[k] == RowFor(b, from + k)
  {
    if from <= to {
      DayRowsShape(b, from, to - 1);
    }
  }

  /** A row is in DayRows exactly when it is the booking's row for a day of [from, to]. */
  lemma DayRowsMembers(b: Booking, from: Day, to: Day, o: Occupancy)
    ensures o in DayRows(b, from, to) <==> Within(o.date, from, to) && o == RowFor(b, o.date)
  {
    DayRowsShape(b, from, to);
    var rows := DayRows(b, from, to);
    if Within(o.date, from, to) && o == RowFor(b, o.date) {
      assert rows[o.date - from] == o;
    }
  }

  /** A booking whose clamped start is after its clamped finish (outside the
      window, or malformed) contributes no rows. */
  lemma SkippedBookingIsEmpty(b: Booking, lo: Option<Day>, hi: Option<Day>)
    requires EffectiveStart(b.task, lo) > EffectiveFinish(b.task, hi)
    ensures BookingRows(b, lo, hi) == []
  {
  }

  /** A malformed task (start after finish) contributes no rows, whatever the window. */
  lemma MalformedTaskIsEmpty(b: Booking, lo: Option<Day>, hi: Option<Day>)
    requires b.task.start > b.task.finish
    ensures BookingRows(b, lo, hi) == []
  {
  }

  /** A well-formed task inside the window contributes finish - start + 1
      rows, the k-th on day start + k. */
  lemma ContainedBookingRows(b: Booking, lo: Option<Day>, hi: Option<Day>)
    requires b.task.start <= b.task.finish
    requires lo.Some? ==> lo.value <= b.task.start
    requires hi.Some? ==> b.task.finish <= hi.value
    ensures |BookingRows(b, lo, hi)| == b.task.finish - b.task.start + 1
    ensures forall k :: 0 <= k < |BookingRows(b, lo, hi)| ==>
      BookingRows(b, lo, hi)[k] == RowFor(b, b.task.start + k)
  {
    DayRowsShape(b, b.task.start, b.task.finish);
  }

  /** A row is in the calendar exactly when it is some booking's row for a
      day of that booking's clamped interval. */
  lemma {:induction false} CalendarMembers(bs: seq<Booking>, lo: Option<Day>, hi: Option<Day>, o: Occupancy)
    ensures o in Calendar(bs, lo, hi) <==>
      exists b :: b in bs && Within(o.date, EffectiveStart(b.task, lo), EffectiveFinish(b.task, hi)) && o == RowFor(b, o.date)
  {
    if bs != [] {
      var init, last := bs[..|bs| - 1], bs[|bs| - 1];
      assert bs == init + [last];
      CalendarMembers(init, lo, hi, o);
      DayRowsMembers(last, EffectiveStart(last.task, lo), EffectiveFinish(last.task, hi), o);
      assert forall b :: b in bs <==> b in init || b == last;
    }
  }

  /** Every row lies inside the window and copies its booking's resource id,
      status and title. */
  lemma CalendarRowsInWindow(bs: seq<Booking>, lo: Option<Day>, hi: Option<Day>)
    ensures forall o :: o in Calendar(bs, lo, hi) ==>
      && (lo.Some? ==> lo.value <= o.date)
      && (hi.Some? ==> o.date <= hi.value)
      && exists b :: b in bs && b.task.start <= o.date <= b.task.finish
                   && o.resourceId == b.task.resourceId && o.status == b.task.status && o.title == b.task.title
  {
    forall o | o in Calendar(bs, lo, hi)
      ensures (lo.Some? ==> lo.value <= o.date) && (hi.Some? ==> o.date <= hi.value)
      ensures exists b :: b in bs && b.task.start <= o.date <= b.task.finish
                   && o.resourceId == b.task.resourceId && o.status == b.task.status && o.title == b.task.title
    {
      CalendarMembers(bs, lo, hi, o);
    }
  }

  /** Two windows that clamp every booking to the same interval give the same calendar. */
  lemma {:induction false} SameClampsSameCalendar(bs: seq<Booking>, lo1: Option<Day>, hi1: Option<Day>,
                                                  lo2: Option<Day>, hi2: Option<Day>)
    requires forall b :: b in bs ==>
      EffectiveStart(b.task, lo1) == EffectiveStart(b.task, lo2) && EffectiveFinish(b.task, hi1) == EffectiveFinish(b.task, hi2)
    ensures Calendar(bs, lo1, hi1) == Calendar(bs, lo2, hi2)
  {
    if bs != [] {
      var init := bs[..|bs| - 1];
      assert forall b :: b in init ==> b in bs;
      SameClampsSameCalendar(init, lo1, hi1, lo2, hi2);
      assert bs[|bs| - 1] in bs;
    }
  }

  /** The booking with every task interval already clamped to the window. */
  function ClampBooking(b: Booking, lo: Option<Day>, hi: Option<Day>): Booking
  {
    b.(task := b.task.(start := EffectiveStart(b.task, lo), finish := EffectiveFinish(b.task, hi)))
  }

  function ClampAll(bs: seq<Booking>, lo: Option<Day>, hi: Option<Day>): (r: seq<Booking>)
    ensures |r| == |bs| && forall i :: 0 <= i < |bs| ==> r[i] == ClampBooking(bs[i], lo, hi)
  {
    seq(|bs|, i requires 0 <= i < |bs| => ClampBooking(bs[i], lo, hi))
  }

  /** DayRows reads only the booking's resource, resource id, status and title. */
  lemma DayRowsIgnoreInterval(b: Booking, c: Booking, from: Day, to: Day)
    requires c.resource == b.resource
    requires c.task.resourceId == b.task.resourceId && c.task.status == b.task.status && c.task.title == b.task.title
    ensures DayRows(c, from, to) == DayRows(b, from, to)
  {
    DayRowsShape(b, from, to);
    DayRowsShape(c, from, to);
  }

  /** Clamping is idempotent: expanding the already-clamped bookings with the
      same window gives the same calendar. */
  lemma {:induction false} ReclampIsNoOp(bs: seq<Booking>, lo: Option<Day>, hi: Option<Day>)
    ensures Calendar(ClampAll(bs, lo, hi), lo, hi) == Calendar(bs, lo, hi)
  {
    if bs != [] {
      var n := |bs|;
      var cs := ClampAll(bs, lo, hi);
      assert cs[..n - 1] == ClampAll(bs[..n - 1], lo, hi);
      ReclampIsNoOp(bs[..n - 1], lo, hi);
      var b, c := bs[n - 1], cs[n - 1];
      assert EffectiveStart(c.task, lo) == EffectiveStart(b.task, lo);
      assert EffectiveFinish(c.task, hi) == EffectiveFinish(b.task, hi);
      DayRowsIgnoreInterval(b, c, EffectiveStart(b.task, lo), EffectiveFinish(b.task, hi));
    }
  }
}
