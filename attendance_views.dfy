/**
 * The arithmetic and predicates inside the attendance views
 * (attendance/views.py): the projected balances after pending occurrences, the
 * start of the current anniversary year, the Sunday-to-Saturday week, the
 * recent payroll Saturdays, the weekly hours total, the incomplete-punch
 * alerts, and close_payroll's gate and regular/overtime split. Dates in the
 * week computations are day ordinals (`date.toordinal()`); querysets arrive as
 * sequences already restricted to the user and week the view asks for.
 */
module AttendanceViews {
  import opened Wrappers
  import opened Dates
  import opened AttendanceRules
  import opened TimeclockModels

  // ---------------------------------------------------------------- projection

  datatype Forecast = Forecast(futurePto: real, futurePersonal: real)

  /** `future_pto` and `future_personal`: balances once the pending hours are taken. */
  function ProjectBalances(pto: real, personal: real, futureHours: real): (r: Forecast)
    ensures r.futurePto == Max(pto - futureHours, 0.0)
    ensures r.futurePto >= 0.0
    ensures (pto - r.futurePto) + (r.futurePersonal - personal) == futureHours
    ensures futureHours <= pto ==> r.futurePersonal == personal
  {
    Forecast(Max(pto - futureHours, 0.0), personal + Max(0.0, futureHours - pto))
  }

  /** The projection is exactly what one deducting occurrence of the pending hours would do. */
  lemma ProjectionIsOneDeduction(b: Balances, futureHours: real)
    ensures var f := ProjectBalances(b.pto, b.personal, futureHours);
            var d := Deduct(b, futureHours);
            f.futurePto == d.pto && f.futurePersonal == d.personal
  {
  }

  // ---------------------------------------------------------------- anniversary window

  /** attendance_list: the service date moved to this year, or to last year when that is ahead; today without one. */
  function WindowStart(serviceDate: Option<CalendarDate>, today: CalendarDate): (r: Result<CalendarDate, DateError>)
    ensures serviceDate.None? ==> r == Ok(today)
    ensures r.Ok? ==> !Before(today, r.value)
    ensures serviceDate.Some? && r.Ok? ==>
              r.value.month == serviceDate.value.month && r.value.day == serviceDate.value.day &&
              (r.value.year == today.year || r.value.year == today.year - 1)
    ensures serviceDate.Some? ==> r.Err? == LastAnniversary(serviceDate.value, today).Err?
  {
    match serviceDate
    case None => Ok(today)
    case Some(sd) => LastAnniversary(sd, today)
  }

  /** dashboard: the same window, computed by moving this year's anniversary back a year. */
  function DashboardWindowStart(serviceDate: Option<CalendarDate>, today: CalendarDate): (r: Result<CalendarDate, DateError>)
    ensures serviceDate.None? ==> r == Ok(today)
  {
    var anniversary := match serviceDate
      case None => Ok(today)
      case Some(sd) => ReplaceYear(sd, today.year);
    match anniversary
    case Err(e) => Err(e)
    case Ok(a) => if Before(today, a) then ReplaceYear(a, today.year - 1) else Ok(a)
  }

  /** Both views start the window on the same date, and fail on the same service dates. */
  lemma WindowStartsAgree(serviceDate: Option<CalendarDate>, today: CalendarDate)
    ensures DashboardWindowStart(serviceDate, today) == WindowStart(serviceDate, today)
  {
  }

  // ---------------------------------------------------------------- weeks

  datatype Week = Week(start: int, end: int)

  /** `start_of_week` and `end_of_week`: the Sunday on or before today, and six days later. */
  function WeekBounds(today: int): (w: Week)
    ensures Weekday(w.start) == 6
    ensures w.start <= today <= w.end
    ensures w.end - w.start == 6
  {
    var start := today - (Weekday(today) + 1) % 7;
    Week(start, start + 6)
  }

  /** The Sunday that starts the week is the latest Sunday not after today. */
  lemma WeekStartIsLatestSunday(today: int, d: int)
    requires Weekday(d) == 6 && d <= today
    ensures d <= WeekBounds(today).start
  {
  }

  /** How many payroll weeks the reports page offers. */
  const DefaultPayrollWeeks := 5

  /**
   * `get_recent_saturdays(count)`: the last Saturday on or before today and the
   * `count - 1` Saturdays before it. The list comprehension already builds them
   * newest first, so the source's `sorted(..., reverse=True)` leaves it as is.
   */
  function RecentSaturdays(today: int, count: int): (r: seq<int>)
    ensures |r| == if count > 0 then count else 0
    ensures forall i :: 0 <= i < |r| ==> Weekday(r[i]) == 5
    ensures |r| > 0 ==> 0 <= today - r[0] <= 6
    ensures forall i :: 0 < i < |r| ==> r[i - 1] - r[i] == 7
    ensures forall i, j :: 0 <= i < j < |r| ==> r[i] > r[j]
  {
    var daysSinceSaturday := (Weekday(today) - 5) % 7;
    var lastSaturday := today - daysSinceSaturday;
    seq(if count > 0 then count else 0, i => lastSaturday - 7 * i)
  }

  /** The first Saturday offered is the latest Saturday not after today. */
  lemma FirstSaturdayIsLatest(today: int, count: int, d: int)
    requires count > 0
    requires Weekday(d) == 5 && d <= today
    ensures d <= RecentSaturdays(today, count)[0]
  {
  }

  /** The reports page offers the five most recent payroll Saturdays, the oldest four weeks before the newest. */
  lemma ReportsPageWeeks(today: int)
    ensures var weeks := RecentSaturdays(today, DefaultPayrollWeeks);
            |weeks| == 5 && weeks[0] - weeks[4] == 28 && 28 <= today - weeks[4] <= 34
  {
    var weeks := RecentSaturdays(today, DefaultPayrollWeeks);
    assert weeks[0] - weeks[1] == 7 && weeks[1] - weeks[2] == 7;
    assert weeks[2] - weeks[3] == 7 && weeks[3] - weeks[4] == 7;
  }

  // ---------------------------------------------------------------- hours

  /** Hours one entry contributes: only with both clock stamps, less lunch only with both lunch stamps. */
  function EntryHours(e: TimeEntry): (h: real)
    ensures e.clockIn.None? || e.clockOut.None? ==> h == 0.0
    ensures AllStamped(e) ==>
              h == ((e.clockOut.value - e.clockIn.value) - (e.lunchIn.value - e.lunchOut.value)) as real / 3600.0
    ensures e.clockIn.Some? && e.clockOut.Some? && (e.lunchIn.None? || e.lunchOut.None?) ==>
              h == (e.clockOut.value - e.clockIn.value) as real / 3600.0
  {
    if e.clockIn.Some? && e.clockOut.Some? then
      var lunch := if e.lunchIn.Some? && e.lunchOut.Some? then e.lunchIn.value - e.lunchOut.value else 0;
      (e.clockOut.value - e.clockIn.value - lunch) as real / 3600.0
    else
      0.0
  }

  /** The hours a run of entries adds up to, in the order the loop visits them. */
  function WorkedHours(entries: seq<TimeEntry>): (r: real)
    ensures (forall i :: 0 <= i < |entries| ==> EntryHours(entries[i]) >= 0.0) ==> r >= 0.0
    ensures (forall i :: 0 <= i < |entries| ==> entries[i].clockIn.None? || entries[i].clockOut.None?) ==> r == 0.0
    decreases |entries|
  {
    if entries == [] then 0.0
    else
      var init := entries[..|entries| - 1];
      assert forall i :: 0 <= i < |init| ==> init[i] == entries[i];
      WorkedHours(init) + EntryHours(entries[|entries| - 1])
  }

  /** The weekly total loop: `total += ...` for every entry with both clock stamps. */
  method WeeklyTotal(entries: seq<TimeEntry>) returns (total: real)
    ensures total == WorkedHours(entries)
  {
    total := 0.0;
    var k := 0;
    while k < |entries|
      invariant 0 <= k <= |entries|
      invariant total == WorkedHours(entries[..k])
    {
      var e := entries[k];
      assert entries[..k + 1][..k] == entries[..k];
      if e.clockIn.Some? && e.clockOut.Some? {
        var lunch := 0;
        if e.lunchIn.Some? && e.lunchOut.Some? {
          lunch := e.lunchIn.value - e.lunchOut.value;
        }
        total := total + (e.clockOut.value - e.clockIn.value - lunch) as real / 3600.0;
      }
      k := k + 1;
    }
    assert entries[..k] == entries;
  }

  /** The total of two runs of entries is the sum of their totals. */
  lemma {:induction false} WorkedHoursAppend(a: seq<TimeEntry>, b: seq<TimeEntry>)
    ensures WorkedHours(a + b) == WorkedHours(a) + WorkedHours(b)
    decreases |b|
  {
    if b == [] {
      assert a + b == a;
    } else {
      var b' := b[..|b| - 1];
      assert (a + b)[..|a + b| - 1] == a + b';
      assert (a + b)[|a + b| - 1] == b[|b| - 1];
      WorkedHoursAppend(a, b');
    }
  }

  /** The entries the total counts: those with both clock stamps. */
  function ClockedEntries(entries: seq<TimeEntry>): seq<TimeEntry>
    decreases |entries|
  {
    if entries == [] then []
    else
      var e := entries[|entries| - 1];
      ClockedEntries(entries[..|entries| - 1]) + (if e.clockIn.Some? && e.clockOut.Some? then [e] else [])
  }

  /** Entries missing a clock stamp add nothing: the total over all entries is the total over the clocked ones. */
  lemma {:induction false} WorkedHoursCountsOnlyClocked(entries: seq<TimeEntry>)
    ensures WorkedHours(entries) == WorkedHours(ClockedEntries(entries))
    decreases |entries|
  {
    if entries != [] {
      var init := entries[..|entries| - 1];
      var e := entries[|entries| - 1];
      WorkedHoursCountsOnlyClocked(init);
      var tail := if e.clockIn.Some? && e.clockOut.Some? then [e] else [];
      WorkedHoursAppend(ClockedEntries(init), tail);
      if tail != [] {
        assert tail[..0] == [];
      }
    }
  }

  // ---------------------------------------------------------------- alerts and payroll

  /** The incomplete entries of a run, one per row and in the order of the rows. */
  function IncompleteOf(entries: seq<TimeEntry>): (r: seq<TimeEntry>)
    ensures |r| <= |entries|
    ensures forall e :: e in r <==> e in entries && IsIncomplete(e)
    decreases |entries|
  {
    if entries == [] then []
    else
      var init := entries[..|entries| - 1];
      var e := entries[|entries| - 1];
      assert entries == init + [e];
      IncompleteOf(init) + if IsIncomplete(e) then [e] else []
  }

  /** Every incomplete row raises its own alert, duplicates included; complete rows raise none. */
  lemma {:induction false} IncompleteOfCountsRows(entries: seq<TimeEntry>, e: TimeEntry)
    ensures multiset(IncompleteOf(entries))[e] == if IsIncomplete(e) then multiset(entries)[e] else 0
    decreases |entries|
  {
    if entries != [] {
      var init := entries[..|entries| - 1];
      var last := entries[|entries| - 1];
      assert entries == init + [last];
      IncompleteOfCountsRows(init, e);
    }
  }

  /** The alert loop: every entry of the week that `is_incomplete`, in order. */
  method Alerts(entries: seq<TimeEntry>) returns (alerts: seq<TimeEntry>)
    ensures alerts == IncompleteOf(entries)
  {
    alerts := [];
    var k := 0;
    while k < |entries|
      invariant 0 <= k <= |entries|
      invariant alerts == IncompleteOf(entries[..k])
    {
      var e := entries[k];
      assert entries[..k + 1][..k] == entries[..k];
      if AnyStamped(e) && !AllStamped(e) {
        alerts := alerts + [e];
      }
      k := k + 1;
    }
    assert entries[..k] == entries;
  }

  /** close_payroll's query: some stamp of the entry is null. */
  predicate HasNullStamp(e: TimeEntry)
    ensures HasNullStamp(e) <==> exists j :: 0 <= j < 4 && Stamps(e)[j].None?
  {
    StampListTests(e);
    e.clockIn.None? || e.clockOut.None? || e.lunchIn.None? || e.lunchOut.None?
  }

  /** Every alert blocks the payroll close; an entry with no stamps at all blocks it too but raises no alert. */
  lemma GateIsStricterThanAlerts(e: TimeEntry)
    ensures IsIncomplete(e) ==> HasNullStamp(e)
    ensures HasNullStamp(e) <==> !AllStamped(e)
    ensures var blank := TimeEntry(None, None, None, None);
            HasNullStamp(blank) && !IsIncomplete(blank)
  {
  }

  datatype PayrollLine = PayrollLine(timeEntryTotal: real, regular: real, overtime: real)

  /** The first 40 hours of a week are regular, the rest overtime. */
  function SplitPayroll(totalHours: real): (p: PayrollLine)
    ensures p.regular <= 40.0 && p.overtime >= 0.0
    ensures p.regular + p.overtime == totalHours && p.timeEntryTotal == totalHours
    ensures totalHours <= 40.0 ==> p.overtime == 0.0
    ensures totalHours >= 40.0 ==> p.regular == 40.0
  {
    var overtime := Max(totalHours - 40.0, 0.0);
    var regular := Min(totalHours, 40.0);
    PayrollLine(regular + overtime, regular, overtime)
  }

  datatype PayrollOutcome = Refused | Lines(lines: seq<PayrollLine>)

  /**
   * close_payroll: refused when any entry of the week has a null stamp;
   * otherwise one line per active non-exempt user with that user's split.
   */
  method ClosePayroll(weekEntries: seq<TimeEntry>, entriesByUser: seq<seq<TimeEntry>>) returns (r: PayrollOutcome)
    ensures r.Refused? <==> exists e :: e in weekEntries && HasNullStamp(e)
    ensures r.Lines? ==> |r.lines| == |entriesByUser|
    ensures r.Lines? ==> forall i :: 0 <= i < |entriesByUser| ==>
              r.lines[i] == SplitPayroll(WorkedHours(entriesByUser[i]))
  {
    if exists e :: e in weekEntries && HasNullStamp(e) {
      return Refused;
    }
    var lines: seq<PayrollLine> := [];
    var k := 0;
    while k < |entriesByUser|
      invariant 0 <= k <= |entriesByUser|
      invariant |lines| == k
      invariant forall i :: 0 <= i < k ==> lines[i] == SplitPayroll(WorkedHours(entriesByUser[i]))
    {
      var totalHours := WeeklyTotal(entriesByUser[k]);
      ghost var before := lines;
      lines := lines + [SplitPayroll(totalHours)];
      forall i | 0 <= i < k + 1
        ensures lines[i] == SplitPayroll(WorkedHours(entriesByUser[i]))
      {
        if i < k {
          assert lines[i] == before[i];
        }
      }
      k := k + 1;
    }
    return Lines(lines);
  }
}
