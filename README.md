# Resource planner scheduling engine — Dafny model

This project models the scheduling and occupancy engine of the resource
planner, a single-file Streamlit application (`app.py`). The planner books
vessels, projects and people onto dated tasks. The model covers the logic
between the task store and the charts:

- **Label derivation**: a resource's display label is its type, an en dash
  separator and its name (`records.dfy`, module `Records`).
- **Overlap filter and window clamp**: the schedule page and the dashboard
  keep a task when its resource type, label (schedule page only) and status
  are selected and its interval meets the chosen window inclusively. The
  schedule page first narrows the window to the range of dates the tasks
  cover (`overlap_filter.dfy`, module `OverlapFilter`).
- **Calendar expander**: each task is clamped to an optional window and
  exploded into one occupancy row per calendar day. A task whose clamped
  start is after its clamped finish is skipped. The expander is an
  imperative method with nested loops, proved equal to a recursive
  specification function (`calendar.dfy`, module `CalendarExpander`).
- **Utilization calculator**: per resource it counts the distinct busy dates
  and the window length, and computes the busy share to one decimal. Rows
  are sorted by utilization, highest first. The watchlist keeps rows at or
  above 80 % (`utilization.dfy`, module `Utilization`).
- **Display orderer**: resource labels are grouped vessels, then projects,
  then people, each group in catalog order. A resource of any other type is
  dropped, as the code does (`display_order.dfy`, module `DisplayOrder`).
- **Engine**: lemmas that connect the pieces as the two pages chain them:
  filter, then expand, then aggregate. The dashboard expands and aggregates
  over the chosen window; the schedule page over the chosen window clamped
  to the data range, so its available days are the clamped window's length
  (`engine.dfy`, module `Engine`).

Representation choices:

- Dates are integer day numbers, and windows are inclusive `Window(lo, hi)`.
- Resource types and statuses are strings, as in the source.
- The optional window bounds of the expander are `Option<Day>`.
- A utilization of 38.7 % is the natural number 387, in tenths of a percent.
- The resource catalog and the task list are sequences that the caller
  supplies. The SQL queries that produce them are not modelled.

## Model

| member | source | states |
|---|---|---|
| Records.Label | app.py:462 | a label is the type, then the separator " – ", then the name, and its length is the sum of the three |
| Records.SplitLabel | app.py:462 | the inverse of the label derivation: any split it returns has a known type and rebuilds the given label |
| Records.SplitLabelInvertsLabel | app.py:462 | splitting the label of a Vessel, Project or Person gives back exactly that type and name |
| Records.LabelInjective | app.py:462 | for the three known types, two labels are equal exactly when type and name are both equal, so a label stands for exactly one (type, name) pair |
| OverlapFilter.Overlaps | app.py:663-664 | the inclusive test `Start <= end && Finish >= start`; for well-formed intervals it holds exactly when task and window share a calendar day |
| OverlapFilter.Lookup | app.py:644-650 | the resource found has the task's resource id and is in the catalog; none is found exactly when no catalog resource has that id |
| OverlapFilter.Join | app.py:644-650 | the join is never longer than the task list; a booking is present exactly when its task is in the input and its resource is the one the catalog holds for the task's resource id |
| OverlapFilter.JoinCounts | app.py:644-650 | the left merge yields each joined task once per occurrence: a booking occurs as often as its task when the catalog holds its resource, and not at all otherwise |
| OverlapFilter.JoinDistributes | app.py:644-650 | joining a concatenation joins each part, so the merge keeps task order |
| OverlapFilter.Select | app.py:659-665 | the selection keeps exactly the bookings the predicate accepts and never grows the input |
| OverlapFilter.SelectCounts | app.py:659-665 | each accepted booking keeps its multiplicity and each rejected booking is gone |
| OverlapFilter.SelectDistributes | app.py:659-665 | filtering a concatenation filters each part in place, so kept tasks stay in input order |
| OverlapFilter.ScheduleView | app.py:643-665 | a task is shown exactly when its resource is in the active catalog and its type, label and status are selected and it overlaps the window inclusively; an empty type, label or status selection shows nothing |
| OverlapFilter.DanglingTaskExcluded | app.py:644-650 | a task whose resource is not in the active catalog is never shown |
| OverlapFilter.DashboardView | app.py:831-838 | a booking is aggregated exactly when its type and status are selected and it overlaps the window; an empty type or status selection keeps nothing |
| OverlapFilter.DataRange | app.py:464-471 | the range runs from the earliest start to the latest finish, both attained by some task, and is the single day `today` when there are no tasks |
| OverlapFilter.ClampToData | app.py:524-525 | the clamped window lies inside both the chosen window and the data range, and each end is the chosen one or the data range's |
| OverlapFilter.ClampedOverlap | app.py:524-525 | under the clamped window a task of the data overlaps exactly when it overlaps the chosen window and also meets the data range |
| OverlapFilter.ClampKeepsOverlap | app.py:524-525 | clamping the window to the data range never changes whether a well-formed task of that data overlaps it |
| OverlapFilter.ClampedScheduleView | app.py:524-525 | for any tasks, a booking is in the schedule view under the clamped window exactly when it is in the view under the chosen window and its task meets the data range |
| OverlapFilter.ClampKeepsScheduleView | app.py:524-525 | when every task has start <= finish, the schedule view under the clamped window equals the view under the chosen window |
| OverlapFilter.ClampHidesMalformedTask | app.py:524-525 | a malformed task of days 5..3 is shown under the chosen window 1..10 but hidden under the clamped window, which is 5..3 |
| CalendarExpander.ExpandToCalendar | app.py:286-317 | the nested loops build exactly the calendar specification: each booking's days in booking order, the empty input giving no rows |
| CalendarExpander.BookingRows | app.py:294-315 | one task's rows: none when its clamped start is after its clamped finish, otherwise one per day of the clamped interval, the k-th dated clamped start + k |
| CalendarExpander.Calendar | app.py:293-315 | the reference definition of the expander: the rows of each task in turn; its properties are stated by `CalendarMembers`, `CalendarRowsInWindow` and `ReclampIsNoOp` |
| CalendarExpander.SameClampsSameCalendar | app.py:297-300 | two windows that clamp every task to the same interval give the same calendar |
| CalendarExpander.DayRowsShape | app.py:305-315 | the day loop emits one row per day of the inclusive range, the k-th row dated start + k, with no gaps |
| CalendarExpander.DayRowsMembers | app.py:305-315 | a row is emitted for a booking exactly when it is that booking's row for a day of the range |
| CalendarExpander.SkippedBookingIsEmpty | app.py:297-303 | a booking whose clamped start is after its clamped finish contributes no rows |
| CalendarExpander.MalformedTaskIsEmpty | app.py:302-303 | a task with start after finish contributes no rows, whatever the window |
| CalendarExpander.ContainedBookingRows | app.py:297-315 | a well-formed task inside the window contributes finish - start + 1 rows, one per consecutive day |
| CalendarExpander.CalendarMembers | app.py:293-315 | a row is in the calendar exactly when some booking's clamped interval contains its date and the row copies that booking's resource, status and title |
| CalendarExpander.CalendarRowsInWindow | app.py:294-314 | every row's date lies in the window and in its task's interval, and its resource id, status and title are its task's |
| CalendarExpander.ReclampIsNoOp | app.py:297-300 | clamping is idempotent: expanding already-clamped tasks with the same window gives the same calendar |
| Utilization.WindowDaysCount | app.py:335 | the window [start, end] has end - start + 1 days |
| Utilization.Keys | app.py:339-344 | the groupby keys are distinct and are exactly the resources present in the calendar |
| Utilization.RoundTenths | app.py:346 | the result is the nearest integer to 1000 · busy / total, and an exact tie goes to the even neighbour |
| Utilization.RoundTenthsBounds | app.py:346 | the rounded utilization is at most 100.0 %; it is 100.0 % when every day is busy and 0.0 % when none is; under 2000 window days it is 100.0 % only when every day is busy and never 0.0 % for a busy resource |
| Utilization.OneIdleDayCanRoundToFull | app.py:346 | in a 2001-day window, a resource idle on one day still rounds to 100.0 % |
| Utilization.Insert | app.py:347 | inserting a row gives a permutation of the row plus the input |
| Utilization.InsertElements | app.py:347 | every row after insertion is the inserted row or a row of the input |
| Utilization.InsertKeepsSorted | app.py:347 | inserting into a table sorted by descending utilization keeps it sorted |
| Utilization.SortByUtilization | app.py:347 | the output is sorted by non-increasing utilization and is a permutation of the input |
| Utilization.SortKeepsRows | app.py:347 | sorting keeps the number of rows and the set of rows |
| Utilization.UtilizationRow | app.py:339-346 | one resource's line: its distinct busy dates, the window length and the rounded utilization; bounded by `BusyDaysBounds` and `RoundTenthsBounds` |
| Utilization.UtilizationRows | app.py:339-346 | one row per resource in the calendar, each with its distinct-date count, the window length and its rounded utilization |
| Utilization.ComputeUtilization | app.py:329-347 | the table is empty exactly when the calendar is empty or the window has no days; otherwise it has one row per resource, with busy days the number of distinct dates, available days the window length, utilization rounded, all sorted highest first |
| Utilization.BusyDaysBounds | app.py:339-345 | for a calendar inside the window, a listed resource has between one and window-length busy days, equal to the window length exactly when every window day is busy |
| Utilization.UtilizationBounds | app.py:339-346 | for a calendar inside the window, every row has 1 <= busy <= available and utilization in [0.0, 100.0], 100.0 % when every day is busy, and under 2000 days 100.0 % only then |
| Utilization.SameDayCountsOnce | app.py:339-343 | another row on a day the resource is already busy leaves its busy days unchanged: overlapping tasks count a day once |
| Utilization.Watchlist | app.py:1028 | the watchlist holds exactly the rows at or above 80.0 %, is never longer than the table, and keeps a sorted table sorted |
| Utilization.WatchlistCounts | app.py:1028 | the boolean mask keeps each row at or above 80.0 % as often as it occurs in the table, and no other row |
| Utilization.WatchlistDistributes | app.py:1028 | the watchlist of a concatenation is the watchlists of the parts, so rows keep their order |
| DisplayOrder.KindPositions | app.py:323-325 | the catalog positions of one type: every resource of that type once, ascending, and no other |
| DisplayOrder.LabelsOfKind | app.py:323-325 | one group's labels are the labels at that type's catalog positions, in catalog order |
| DisplayOrder.KindPositionsInDisplayOrder | app.py:323-325 | one group's positions are in display order |
| DisplayOrder.DisplayPositions | app.py:320-326 | every resource of a known type appears, no other resource does, and vessels precede projects precede people, catalog order within a group |
| DisplayOrder.OrderedLabelsFollowPositions | app.py:320-326 | the i-th ordered label is the label of the i-th display position |
| DisplayOrder.OrderedLabels | app.py:320-326 | `ordered_resource_labels`: as many labels as there are vessels, projects and people; their order is stated by `OrderedLabelsFollowPositions` |
| DisplayOrder.ThreeResourceExample | app.py:320-326 | a catalog of a person, a vessel and a project orders as vessel, project, person |
| Engine.OverlapIffContributes | app.py:297-303 | for a well-formed task and window, the overlap filter keeps the task exactly when the expander gives it at least one row |
| Engine.BusyDaysAreClampedUnion | app.py:339-343 | a resource's busy days are the union of its tasks' intervals clamped to the window |
| Engine.DashboardUtilizationBounds | app.py:844-845 | utilization over the window the calendar was expanded with stays in [0.0, 100.0], with 1 <= busy <= available days |
| Engine.EmptyPipeline | app.py:289-290 | no tasks give an empty calendar, and an empty calendar gives an empty utilization table |
| Engine.SchedulePageLoad | app.py:717-718 | on the schedule page, the calendar under the clamped window is the calendar under the chosen window, and every row's available days are the clamped window's length, at most the chosen window's |
| Engine.SchedulePageCableLay | app.py:717-718 | with days 4..15 as the only task and the chosen window 1..31, the window is clamped to 4..15 and the table is 12 busy days out of 12, 100.0 % |
| Engine.PartialOverlapExample | app.py:305-315 | a task of days 10..20 against the window 15..25 overlaps it and expands to six rows dated 15..20 |
| Engine.CableLayCalendar | app.py:339-344 | one task of days 4..15 in the window 1..31 gives one resource busy on exactly the days 4..15 |
| Engine.CableLayExample | app.py:329-347 | that calendar's table is one row: 12 busy days out of 31, 38.7 % |

## Left out

- SQLite storage (`get_connection`, `init_db`, `seed_demo_data`, the `fetch_*`, `insert_*`, `update_*` and `delete_*` helpers): the catalog and the task list are parameters. The `active_only` filter and the `ORDER BY type, name` of the resource query are the caller's job.
- Streamlit pages, forms, session state and navigation, apart from the filter predicate and the window clamp. The zoom choice, the task label text and the chart layout are not modelled.
- Plotly charts, CSS injection and the palette and status colour maps: rendering only.
- Date parsing with `pd.to_datetime`, `normalize()` and times of day: dates are integer day numbers.
- Weekly period bucketing and the dashboard's mean utilization: they depend on floating point and on pandas periods.
- `date.today()` and `utcnow()`: the current day is a parameter of `OverlapFilter.DataRange`, and timestamps are not modelled.
- Task descriptions and timestamp columns: they do not affect filtering, expansion or aggregation.
- Duplicate resource ids in the catalog: ids are primary keys, so `OverlapFilter.Lookup` takes the first match. The source's left merge would duplicate the task's row instead.
- Utilization.RoundTenths: it rounds the exact ratio, half to even. The source rounds the binary floating-point value of `busy / total * 100` with pandas `round(1)`, which can differ in the last tenth on values within a rounding error of a tie.
- Utilization.SortByUtilization: it promises only a non-increasing order and a permutation. pandas `sort_values` uses an unstable quicksort by default, so the source does not fix the order of resources with equal utilization either. The contract does not fix the order of rows with equal utilization.
- Utilization.RoundTenthsBounds: "100.0 % exactly when every day is busy" is proved only for windows shorter than 2000 days. With longer windows a single idle day rounds to 100.0 %, as `Utilization.OneIdleDayCanRoundToFull` shows.
- Duplicate (type, name) pairs: nothing enforces their uniqueness, so two such resources share a label, and the label filter and the display orderer cannot tell them apart.
- The label-filtered call of the display orderer on the schedule page, and the y-axis ordering that uses it: the model covers the orderer itself.
