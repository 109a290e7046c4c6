/** The overlap filter: which tasks are "in view" for a selection of
    resource types, labels and statuses and an inclusive date window, and the
    clamp of the schedule page's window to the range of dates the data covers. */
module OverlapFilter {
  import opened Records

  /** Inclusive overlap: the task starts no later than the window ends and
      finishes no earlier than the window starts. For well-formed intervals
      this means that task and window share a calendar day. */
  predicate Overlaps(t: Task, w: Window): (r: bool)
    ensures t.start <= t.finish && w.lo <= w.hi ==>
      (r <==> exists d :: Within(d, w.lo, w.hi) && Within(d, t.start, t.finish))
  {
    var d := Max(t.start, w.lo);
    assert t.start <= t.finish && t.start <= w.hi && t.finish >= w.lo && w.lo <= w.hi ==> Within(d, w.lo, w.hi) && Within(d, t.start, t.finish);
    t.start <= w.hi && t.finish >= w.lo
  }

  /** The first resource in the catalog with the given id, if any. */
  function Lookup(catalog: seq<Resource>, id: int): (r: Option<Resource>)
    ensures r.Some? ==> r.value in catalog && r.value.id == id
    ensures r.None? <==> forall c :: c in catalog ==> c.id != id
  {
    if catalog == [] then None
    else if catalog[0].id == id then Some(catalog[0])
    else Lookup(catalog[1..], id)
  }

  /** Joins every task with its resource in the catalog; a task whose resource
      is not in the catalog (a dangling reference, or an inactive resource left
      out of the catalog) gets no label and no type, so it is dropped. */
  function Join(tasks: seq<Task>, catalog: seq<Resource>): (r: seq<Booking>)
    ensures |r| <= |tasks|
    ensures forall b :: b in r <==> b.task in tasks && Lookup(catalog, b.task.resourceId) == Some(b.resource)
  {
    if tasks == [] then []
    else
      var rest := Join(tasks[1..], catalog);
      match Lookup(catalog, tasks[0].resourceId)
      case None => rest
      case Some(res) => [Booking(tasks[0], res)] + rest
  }

  /** The left merge keeps every joined task once: a booking occurs as often
      as its task does when the catalog holds its resource, and not at all
      otherwise. */
  lemma {:induction false} JoinCounts(tasks: seq<Task>, catalog: seq<Resource>, b: Booking)
    ensures multiset(Join(tasks, catalog))[b] ==
      if Lookup(catalog, b.task.resourceId) == Some(b.resource) then multiset(tasks)[b.task] else 0
  {
    if tasks != [] {
      JoinCounts(tasks[1..], catalog, b);
      assert tasks == [tasks[0]] + tasks[1..];
    }
  }

  /** Joining a concatenation joins each part: the merge keeps task order. */
  lemma {:induction false} JoinDistributes(a: seq<Task>, b: seq<Task>, catalog: seq<Resource>)
    ensures Join(a + b, catalog) == Join(a, catalog) + Join(b, catalog)
  {
    if a == [] {
      assert a + b == b;
    } else {
      var ab := a + b;
      assert ab[0] == a[0] && ab[1..] == a[1..] + b;
      JoinDistributes(a[1..], b, catalog);
    }
  }

  /** The bookings `keep` accepts, in their original order and multiplicity. */
  function Select(bs: seq<Booking>, keep: Booking -> bool): (r: seq<Booking>)
    ensures forall b :: b in r <==> b in bs && keep(b)
    ensures |r| <= |bs|
  {
    if bs == [] then []
    else
      var rest := Select(bs[1..], keep);
      assert bs == [bs[0]] + bs[1..];
      if keep(bs[0]) then [bs[0]] + rest else rest
  }

  /** Each booking occurs in the selection as often as in the input when
      `keep` accepts it, and not at all otherwise. */
  lemma {:induction false} SelectCounts(bs: seq<Booking>, keep: Booking -> bool, b: Booking)
    ensures multiset(Select(bs, keep))[b] == if keep(b) then multiset(bs)[b] else 0
  {
    if bs != [] {
      SelectCounts(bs[1..], keep, b);
      assert bs == [bs[0]] + bs[1..];
    }
  }

  /** Selecting from a concatenation selects from each part: the filter keeps
      the relative order of the tasks it keeps. */
  lemma {:induction false} SelectDistributes(a: seq<Booking>, b: seq<Booking>, keep: Booking -> bool)
    ensures Select(a + b, keep) == Select(a, keep) + Select(b, keep)
  {
    if a == [] {
      assert a + b == b;
    } else {
      var ab := a + b;
      assert ab[0] == a[0] && ab[1..] == a[1..] + b;
      SelectDistributes(a[1..], b, keep);
      if keep(a[0]) {
        assert Select(ab, keep) == [a[0]] + Select(ab[1..], keep);
        assert Select(a, keep) == [a[0]] + Select(a[1..], keep);
      } else {
        assert Select(ab, keep) == Select(ab[1..], keep);
        assert Select(a, keep) == Select(a[1..], keep);
      }
    }
  }

  /** The schedule page's selection: resource types, resource labels,
      statuses and the date window. */
  datatype ScheduleSelection = ScheduleSelection(types: set<string>, labels: set<string>,
                                                 statuses: set<string>, window: Window)

  predicate InScheduleView(b: Booking, sel: ScheduleSelection)
  {
    && b.resource.kind in sel.types
    && ResourceLabel(b.resource) in sel.labels
    && b.task.status in sel.statuses
    && Overlaps(b.task, sel.window)
  }

  /** The tasks the schedule page shows: those joined with a catalog resource
      whose type, label and status are selected and which overlap the window. */
  function ScheduleView(tasks: seq<Task>, catalog: seq<Resource>, sel: ScheduleSelection): (r: seq<Booking>)
    ensures forall b :: b in r <==>
      b.task in tasks && Lookup(catalog, b.task.resourceId) == Some(b.resource) && InScheduleView(b, sel)
    ensures |r| <= |tasks|
    ensures sel.types == {} || sel.labels == {} || sel.statuses == {} ==> r == []
  {
    var r := Select(Join(tasks, catalog), b => InScheduleView(b, sel));
    assert r != [] ==> r[0] in r;
    r
  }

  /** The dashboard's selection: resource types, statuses and the date window
      (it has no label filter). */
  datatype DashboardSelection = DashboardSelection(types: set<string>, statuses: set<string>, window: Window)

  predicate InDashboardView(b: Booking, sel: DashboardSelection)
  {
    b.resource.kind in sel.types && b.task.status in sel.statuses && Overlaps(b.task, sel.window)
  }

  /** The tasks the dashboard aggregates, from tasks already joined with
      their resources. */
  function DashboardView(bs: seq<Booking>, sel: DashboardSelection): (r: seq<Booking>)
    ensures forall b :: b in r <==> b in bs && InDashboardView(b, sel)
    ensures sel.types == {} || sel.statuses == {} ==> r == []
  {
    var r := Select(bs, b => InDashboardView(b, sel));
    assert r != [] ==> r[0] in r;
    r
  }

  /** The earliest start and the latest finish over all tasks; with no tasks,
      the single day `today`. */
  function DataRange(tasks: seq<Task>, today: Day): (r: Window)
    ensures tasks == [] ==> r == Window(today, today)
    ensures forall t :: t in tasks ==> r.lo <= t.start && t.finish <= r.hi
    ensures tasks != [] ==> (exists t :: t in tasks && t.start == r.lo) && (exists t :: t in tasks && t.finish == r.hi)
  {
    if |tasks| == 0 then Window(today, today)
    else if |tasks| == 1 then Window(tasks[0].start, tasks[0].finish)
    else
      var rest := DataRange(tasks[1..], today);
      assert forall t :: t in tasks[1..] ==> t in tasks;
      assert forall t :: t in tasks ==> t == tasks[0] || t in tasks[1..];
      Window(Min(tasks[0].start, rest.lo), Max(tasks[0].finish, rest.hi))
  }

  /** Narrows the chosen window to the data range. */
  function ClampToData(w: Window, range: Window): (r: Window)
    ensures range.lo <= r.lo && r.hi <= range.hi
    ensures w.lo <= r.lo && r.hi <= w.hi
    ensures r.lo == w.lo || r.lo == range.lo
    ensures r.hi == w.hi || r.hi == range.hi
  {
    Window(Max(w.lo, range.lo), Min(w.hi, range.hi))
  }

  /** Under the clamped window a task of the data overlaps exactly when it
      overlaps the chosen window and also meets the data range. */
  lemma ClampedOverlap(tasks: seq<Task>, today: Day, w: Window, t: Task)
    requires t in tasks
    ensures var range := DataRange(tasks, today);
      Overlaps(t, ClampToData(w, range)) <==> Overlaps(t, w) && t.start <= range.hi && t.finish >= range.lo
  {
    var range := DataRange(tasks, today);
    assert range.lo <= t.start && t.finish <= range.hi;
  }

  /** A well-formed task always meets the data range, so for it the clamp
      never changes the overlap test. */
  lemma ClampKeepsOverlap(tasks: seq<Task>, today: Day, w: Window, t: Task)
    requires t in tasks && t.start <= t.finish
    ensures Overlaps(t, ClampToData(w, DataRange(tasks, today))) == Overlaps(t, w)
  {
    ClampedOverlap(tasks, today, w, t);
  }

  /** The schedule view under the clamped window is the view under the chosen
      window, less the tasks that miss the data range (only malformed tasks,
      start after finish, can). */
  lemma ClampedScheduleView(tasks: seq<Task>, catalog: seq<Resource>, sel: ScheduleSelection, today: Day, b: Booking)
    ensures var range := DataRange(tasks, today);
      b in ScheduleView(tasks, catalog, sel.(window := ClampToData(sel.window, range))) <==>
      b in ScheduleView(tasks, catalog, sel) && b.task.start <= range.hi && b.task.finish >= range.lo
  {
    if b.task in tasks {
      ClampedOverlap(tasks, today, sel.window, b.task);
    }
  }

  /** A malformed task of days 5..3 is shown under the chosen window 1..10 but
      hidden under that window clamped to the data range, which is 5..3. */
  lemma ClampHidesMalformedTask(b: Booking, catalog: seq<Resource>, today: Day)
    requires b.task.start == 5 && b.task.finish == 3
    requires Lookup(catalog, b.task.resourceId) == Some(b.resource)
    ensures var sel := ScheduleSelection({b.resource.kind}, {ResourceLabel(b.resource)}, {b.task.status}, Window(1, 10));
      && ClampToData(sel.window, DataRange([b.task], today)) == Window(5, 3)
      && b in ScheduleView([b.task], catalog, sel)
      && b !in ScheduleView([b.task], catalog, sel.(window := ClampToData(sel.window, DataRange([b.task], today))))
  {
    var sel := ScheduleSelection({b.resource.kind}, {ResourceLabel(b.resource)}, {b.task.status}, Window(1, 10));
    ClampedScheduleView([b.task], catalog, sel, today, b);
  }

  /** Hence, when every task is well formed, the schedule view is the same
      under the clamped window. */
  lemma ClampKeepsScheduleView(tasks: seq<Task>, catalog: seq<Resource>, sel: ScheduleSelection, today: Day)
    requires forall t :: t in tasks ==> t.start <= t.finish
    ensures ScheduleView(tasks, catalog, sel.(window := ClampToData(sel.window, DataRange(tasks, today))))
         == ScheduleView(tasks, catalog, sel)
  {
    var sel' := sel.(window := ClampToData(sel.window, DataRange(tasks, today)));
    var joined := Join(tasks, catalog);
    forall b | b in joined
      ensures InScheduleView(b, sel') == InScheduleView(b, sel)
    {
      ClampKeepsOverlap(tasks, today, sel.window, b.task);
    }
    SelectCongruent(joined, b => InScheduleView(b, sel'), b => InScheduleView(b, sel));
  }

  /** Two filters that agree on every booking of the input select the same bookings. */
  lemma {:induction false} SelectCongruent(bs: seq<Booking>, k1: Booking -> bool, k2: Booking -> bool)
    requires forall b :: b in bs ==> k1(b) == k2(b)
    ensures Select(bs, k1) == Select(bs, k2)
  {
    if bs != [] {
      assert forall b :: b in bs[1..] ==> b in bs;
      SelectCongruent(bs[1..], k1, k2);
    }
  }

  /** A task whose resource is missing from the catalog is never in view. */
  lemma DanglingTaskExcluded(tasks: seq<Task>, catalog: seq<Resource>, sel: ScheduleSelection, t: Task)
    requires forall c :: c in catalog ==> c.id != t.resourceId
    ensures forall b :: b in ScheduleView(tasks, catalog, sel) ==> b.task != t
  {
  }
}
