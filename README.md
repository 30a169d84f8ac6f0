# PTO and personal-time engine of the tfapp attendance system

This project is a Dafny model of the balance engine of tfapp, a Django
time-and-attendance application. It proves properties of that model.

Each employee (`CustomUser`) carries four balances, all in hours:

- `pto_balance`
- `personal_time_balance`
- `final_pto_balance`, a snapshot used for reporting
- `hours_worked`, an accumulator

The engine changes these balances in four ways:

- hourly accrual, one PTO hour per 30 hours worked;
- the tiered reset on the service anniversary;
- a recalculation pass that applies caps and floors;
- absence occurrences, which take PTO first and put any shortfall into personal time.

Around the engine, the views compute:

- projected balances;
- the current anniversary year;
- the Sunday-to-Saturday week;
- the recent payroll Saturdays;
- weekly hours;
- alerts for incomplete punches;
- the regular/overtime split of the payroll close.

Modules, one per source file or concern:

- `Wrappers` (wrappers.dfy): Option, Result and Outcome. An `Err` or `Fail` stands for a Python exception.
- `Dates` (dates.dfy): the parts of Python's `datetime.date` the engine uses. This covers valid dates in years 1 to 9999, `toordinal()`, `weekday()`, chronological comparison, and `replace(year=...)`. Failures of `replace` are errors `YearOutOfRange` and `DayOutOfRange`.
- `AttendanceRules` (attendance_rules.dfy): the pure rules of `attendance/models.py`. Each balance update is a function on a `Balances` value.
- `AttendanceModels` (attendance_models.dfy): the classes `User` and `Occurrence`. Their methods update fields in place, and each method's postcondition ties the new fields to the matching rule.
- `AttendanceAdmin` (attendance_admin.dfy): the bulk reset action and the occurrence save hook.
- `AttendanceViews` (attendance_views.dfy): the arithmetic and loops of the views.
- `TimeclockModels` (timeclock_models.dfy): `TimeEntry` and `is_incomplete`.

The wall clock is a parameter. Every operation that reads `date.today()` takes
`today`. The week computations work on day ordinals.

Hours are exact `real`s:

- Python's `//` on floats is `FloorDiv`, the floor of the quotient.
- Python's `%` on floats is `FloorMod`, the remainder after that floor.
- Integer day counts use Dafny's `/` and `%`. For the positive divisors used here (365, 30, 7), these agree with Python's floor division and modulo.

The code disagrees with its own comments, or behaves in ways its names do not
suggest, in the places below. The model follows the code in each case.

- The anniversary reset returns early when zero days separate today from the
  most recent anniversary, so it skips on the anniversary day itself. It
  changes balances on every other day it is run, despite the comment at
  `attendance/models.py:73`. On the anniversary of four completed years, a
  balance of 50 is left as it is, not set to 80 (`AnniversaryDayExample`).
- The recalculation pass can lower PTO. The part-time branch caps it at 72.
- The reset's tier table allocates 120 hours at 9 years. The recalculation
  floor table gives 100 at 9 years. The two tables agree at every other tenure
  of 3 years or more.
- Running the reset for a full-time employee in years 0 to 2 overwrites PTO with 0.
- Before the service date, the day count is negative. The grace allowance is
  then larger than 3. One day before the service date it is 4.

## Model

| member | source | states |
|---|---|---|
| `Dates.Ordinal` | tfapp/attendance/models.py:49 | the day ordinal behind `(today - service_date).days` is at least 1 and equals the day of the month throughout January of year 1 |
| `Dates.OrdinalCountsDays` | tfapp/attendance/models.py:49 | 0001-01-01 has ordinal 1, and the calendar day after any date has the next ordinal, across month ends, year ends and 29 February; only 9999-12-31 has no next day |
| `Dates.KnownSunday` | tfapp/attendance/views.py:84 | 2024-03-10 has ordinal 738955 and is a Sunday (weekday 6) |
| `Dates.Weekday` | tfapp/attendance/views.py:29 | `date.weekday()` lies in 0..6 and is Monday (0) exactly on the ordinals 1, 8, 15, ..., so 0001-01-01 is a Monday |
| `Dates.OrdinalOrder` | tfapp/attendance/models.py:72 | one date is before another exactly when its ordinal is smaller, and two dates are equal exactly when their ordinals are equal |
| `Dates.ReplaceYear` | tfapp/attendance/models.py:66-68 | `replace(year=y)` keeps month and day, raises for a year outside 1..9999, and raises for 29 February in a year without it |
| `AttendanceRules.DaysOfService` | tfapp/attendance/models.py:49 | the day count is 0 exactly on the service date itself, positive exactly after it and negative exactly before it |
| `AttendanceRules.YearsOfService` | tfapp/attendance/models.py:46-49 | 0 without a service date; otherwise the floor of days/365 (365·r ≤ days < 365·r + 365), never negative when the service date is not in the future |
| `AttendanceRules.GraceForDays` | tfapp/attendance/models.py:55 | never negative; 0 after day 90; for 0..90 days at most 3 and equal to 3 − ⌊days/30⌋ |
| `AttendanceRules.GraceOccurrencesRemaining` | tfapp/attendance/models.py:51-55 | 0 without a service date; otherwise the allowance for the days of service |
| `AttendanceRules.GraceNonIncreasing` | tfapp/attendance/models.py:55 | the allowance never grows as the days of service grow |
| `AttendanceRules.GraceBeforeServiceDate` | tfapp/attendance/models.py:54-55 | before the service date the allowance exceeds 3; it is 4 one day before |
| `AttendanceRules.FloorDiv` | tfapp/attendance/models.py:38 | `worked // 30` is the whole k with 30·k ≤ worked < 30·k + 30 |
| `AttendanceRules.FloorMod` | tfapp/attendance/models.py:43 | `worked % 30` lies in [0, 30) and worked = 30·(worked // 30) + remainder |
| `AttendanceRules.AccruesHourly` | tfapp/attendance/models.py:36 | hourly accrual applies exactly to part-time staff and to the full-time staff whom the anniversary tiers allocate nothing |
| `AttendanceRules.Accrued` | tfapp/attendance/models.py:35-44 | no change when the user is full-time with more than 2 years; otherwise the accumulator ends in [0, 30) and the hours are conserved (new accumulator + 30·earned = old + reported); part-time PTO becomes min(old + earned, 72) and never exceeds 72; early-tenure full-time PTO grows by exactly the hours earned, uncapped; personal and final balances are untouched |
| `AttendanceRules.AccrualAdditiveFullTime` | tfapp/attendance/models.py:36-43 | for full-time staff of at most 2 years, accruing a and then c equals accruing a + c |
| `AttendanceRules.AccrualAdditivePartTime` | tfapp/attendance/models.py:36-43 | for part-time staff the same holds when the second report is not negative |
| `AttendanceRules.AccruedAllIsOneAccrual` | tfapp/attendance/models.py:36-43 | any non-empty sequence of reports for an early-tenure full-time employee equals one report of their total |
| `AttendanceRules.PartTimeAccrualStaysInRange` | tfapp/attendance/models.py:37-43 | part-time staff starting in range keep 0 ≤ PTO ≤ 72 and 0 ≤ accumulator < 30 through any sequence of non-negative reports |
| `AttendanceRules.AccrualExamples` | tfapp/attendance/models.py:37-43 | 28 carried + 5 reported hours earn 1 PTO hour and carry 3; a part-time 71 hours plus 1 earned stop at 72 with 1 carried |
| `AttendanceRules.LastAnniversary` | tfapp/attendance/models.py:65-70 | the result has the service date's month and day, this year or last year, is never after today, and is last year's only when this year's is still ahead |
| `AttendanceRules.LastAnniversaryExists` | tfapp/attendance/models.py:66-68 | the anniversary can always be formed unless the service date is 29 February or today is in year 1 |
| `AttendanceRules.LeapDayAnniversary` | tfapp/attendance/models.py:66-68 | a 29 February service date raises exactly in years without 29 February and in leap years before that day |
| `AttendanceRules.AnniversaryGuardMeansToday` | tfapp/attendance/models.py:72-73 | the `< 1` day guard holds exactly when today is the most recent anniversary |
| `AttendanceRules.TierAllocation` | tfapp/attendance/models.py:75-89 | 0 below 3 years, between 80 and 180 from 3 years on, 180 from 25 years |
| `AttendanceRules.TierAllocationMonotone` | tfapp/attendance/models.py:76-89 | the allocation never decreases with tenure |
| `AttendanceRules.TierFloor` | tfapp/attendance/models.py:111-122 | the floor for 3 or more years lies between 80 and 180 and is 180 from 25 years |
| `AttendanceRules.TierFloorMonotone` | tfapp/attendance/models.py:111-122 | the floor never decreases with tenure |
| `AttendanceRules.TierTablesDifferOnlyAtNine` | tfapp/attendance/models.py:76-122 | from 3 years on, the reset allocation and the recalculation floor agree except at 9 years (120 against 100) |
| `AttendanceRules.AnniversaryReset` | tfapp/attendance/models.py:57-93 | part-time users and users without a service date are unchanged; otherwise an unformable anniversary raises; on the anniversary day nothing changes; on any other day the final balance takes the old PTO and PTO becomes the tier allocation |
| `AttendanceRules.ResetTouchesOnlyPto` | tfapp/attendance/models.py:91-92 | a completed reset leaves personal time and the accumulator alone and sets PTO to 0 or a tier value with the old PTO snapshotted |
| `AttendanceRules.EarlyTenureResetZeroesPto` | tfapp/attendance/models.py:86-92 | a full-time user of at most 2 years reset on a day other than the anniversary loses all PTO into the snapshot |
| `AttendanceRules.ResetTwiceLosesSnapshot` | tfapp/attendance/models.py:72-92 | off the anniversary day a second reset overwrites the snapshot with the allocation |
| `AttendanceRules.AnniversaryDayExample` | tfapp/attendance/models.py:63-92 | with four completed years, the reset leaves 50 hours alone on the anniversary and turns them into an 80-hour allocation the day after |
| `AttendanceRules.Recalculated` | tfapp/attendance/models.py:95-125 | exempt: personal time 0 and final = PTO; part-time: PTO becomes min(PTO, 72) (unchanged exactly when already ≤ 72), final = PTO; full-time with a service date at 2 years: final = PTO; at 3+ years: PTO raised to the tier floor, never lowered, final = PTO; everyone else unchanged |
| `AttendanceRules.RecalculateIdempotent` | tfapp/attendance/models.py:95-125 | running the pass twice gives the same balances as running it once |
| `AttendanceRules.RecalculateLowersOnlyPartTime` | tfapp/attendance/models.py:103-105 | PTO drops only for a non-exempt part-time user above 72, and then to exactly 72 |
| `AttendanceRules.RecalculationExample` | tfapp/attendance/models.py:113-114 | a full-time user of 6 years with 90 hours is raised to 100 |
| `AttendanceRules.SubtypeValuesDistinct` | tfapp/attendance/models.py:132-148 | there are sixteen subtypes and their stored values are distinct |
| `AttendanceRules.SubtypeListsPartition` | tfapp/attendance/models.py:164-188 | the non-deducting and deducting lists are disjoint and together cover every subtype |
| `AttendanceRules.Deduct` | tfapp/attendance/models.py:189-194 | PTO becomes max(PTO − used, 0), never negative; the hours taken from PTO plus the hours added to personal time equal the hours used; personal time is untouched when PTO suffices |
| `AttendanceRules.DeductTwiceDeductsAgain` | tfapp/attendance/models.py:159-197 | applying a non-zero occurrence twice takes twice its hours and ends in a different state from applying it once |
| `AttendanceRules.DeductionExample` | tfapp/attendance/models.py:189-194 | 15 hours against 10 of PTO leave PTO 0 and add 5 to personal time |
| `AttendanceModels.User.constructor` | tfapp/attendance/models.py:18-27 | a new record keeps the given HR attributes and starts every balance at 0 |
| `AttendanceModels.User.AccruePto` | tfapp/attendance/models.py:35-44 | the user's balances after the call are the accrual of the old balances for the user's category and tenure today |
| `AttendanceModels.User.ResetPtoAtServiceAnniversary` | tfapp/attendance/models.py:57-93 | the balances become the reset of the old balances, or stay as they were when the anniversary cannot be formed, which is reported as the raised error |
| `AttendanceModels.User.RecalculateBalances` | tfapp/attendance/models.py:95-125 | the balances become the recalculation of the old balances for the user's category and tenure today |
| `AttendanceModels.Occurrence.constructor` | tfapp/attendance/models.py:151-157 | a new occurrence keeps its user, type, subtype, date and duration and starts with `pto_applied` false |
| `AttendanceModels.Occurrence.ApplyPto` | tfapp/attendance/models.py:159-197 | non-deducting subtypes leave the user's balances alone and clear the flag; deducting subtypes apply the deduction to the user and set the flag |
| `AttendanceAdmin.Selected` | tfapp/attendance/admin.py:10 | a user the action's filter skips would be left unchanged by the reset on any day and from any balances; a selected user is full-time with a service date |
| `AttendanceAdmin.SelectedCount` | tfapp/attendance/admin.py:8-12 | the count is at most the number of users in the queryset |
| `AttendanceAdmin.SelectedCountAppend` | tfapp/attendance/admin.py:9-12 | the count over two batches is the sum of their counts |
| `AttendanceAdmin.RemoveAt` | tfapp/attendance/admin.py:9-12 | taking one user out of the queryset removes exactly one copy of that user from its multiset |
| `AttendanceAdmin.SelectedCountRemoveAt` | tfapp/attendance/admin.py:9-12 | taking one user out of the queryset lowers the count by 1 when that user is selected, and by 0 otherwise |
| `AttendanceAdmin.SelectedCountIgnoresOrder` | tfapp/attendance/admin.py:9-12 | any two orderings of the same users (equal multisets) give the same count, so the count does not depend on the order the queryset yields them in |
| `AttendanceAdmin.SelectedCountZero` | tfapp/attendance/admin.py:10-12 | the count is 0 exactly when no user has a service date while being full-time |
| `AttendanceAdmin.RecalculatePto` | tfapp/attendance/admin.py:7-13 | on completion the count is the number of users with a service date who are not part-time, including those the reset left alone on their anniversary; each user's balances are the reset of that user's own old balances, so the order of iteration does not matter; users the filter skips are unchanged; an error stops the loop at an eligible user, users before it are reset and the rest unchanged |
| `AttendanceAdmin.SaveModel` | tfapp/attendance/admin.py:55-57 | every save, new or edited, applies the occurrence again, whatever `pto_applied` says |
| `AttendanceViews.ProjectBalances` | tfapp/attendance/views.py:80-82 | projected PTO is max(PTO − pending, 0), never negative; the hours leaving PTO plus those added to personal time equal the pending hours; personal time is unchanged when PTO covers them |
| `AttendanceViews.ProjectionIsOneDeduction` | tfapp/attendance/views.py:152-154 | the projection equals one deducting occurrence of the pending hours |
| `AttendanceViews.WindowStart` | tfapp/attendance/views.py:134-139 | today without a service date; otherwise the service date's month and day in this or last year, never after today, failing exactly when the anniversary cannot be formed |
| `AttendanceViews.DashboardWindowStart` | tfapp/attendance/views.py:63-65 | today without a service date |
| `AttendanceViews.WindowStartsAgree` | tfapp/attendance/views.py:63-65 | the dashboard's window start equals the attendance list's, errors included |
| `AttendanceViews.WeekBounds` | tfapp/attendance/views.py:84-85 | the week starts on a Sunday, contains today, and ends six days after it starts |
| `AttendanceViews.WeekStartIsLatestSunday` | tfapp/attendance/views.py:84 | no Sunday on or before today is later than the week's start |
| `AttendanceViews.RecentSaturdays` | tfapp/attendance/views.py:27-31 | `count` dates (none for a count ≤ 0), all Saturdays, strictly descending, 7 days apart, the first 0 to 6 days before today |
| `AttendanceViews.ReportsPageWeeks` | tfapp/attendance/views.py:234 | the reports page's default call offers five Saturdays, the oldest 28 days before the newest and 28 to 34 days before today |
| `AttendanceViews.FirstSaturdayIsLatest` | tfapp/attendance/views.py:29-30 | no Saturday on or before today is later than the first date offered |
| `AttendanceViews.EntryHours` | tfapp/attendance/views.py:91-95 | an entry without both clock stamps adds nothing; lunch is subtracted only when both lunch stamps are set |
| `AttendanceViews.WorkedHours` | tfapp/attendance/views.py:88-95 | the total is not negative when no entry contributes negative hours, and is 0 when no entry has both clock stamps |
| `AttendanceViews.WeeklyTotal` | tfapp/attendance/views.py:88-95 | the loop's total is the sum of the entries' hours in order |
| `AttendanceViews.WorkedHoursAppend` | tfapp/attendance/views.py:90-95 | the total over two runs of entries is the sum of their totals |
| `AttendanceViews.WorkedHoursCountsOnlyClocked` | tfapp/attendance/views.py:91 | the total over all entries equals the total over the entries with both clock stamps |
| `AttendanceViews.IncompleteOf` | tfapp/attendance/views.py:101-104 | the filtered run is no longer than the entries, and an entry is in it exactly when it is one of the entries and is incomplete |
| `AttendanceViews.IncompleteOfCountsRows` | tfapp/attendance/views.py:101-104 | each incomplete row appears in the filter as often as in the entries, duplicates included; complete rows never appear |
| `AttendanceViews.Alerts` | tfapp/attendance/views.py:98-104 | the loop's alerts are exactly the in-order filter of the week's entries to the incomplete ones |
| `AttendanceViews.HasNullStamp` | tfapp/attendance/views.py:262-269 | the gate's four `isnull` conditions hold exactly when some stamp of the list is null |
| `AttendanceViews.GateIsStricterThanAlerts` | tfapp/attendance/views.py:262-273 | every alerted entry blocks the payroll close; the gate blocks exactly the entries that are not fully stamped, including an entry with no stamps, which raises no alert |
| `AttendanceViews.SplitPayroll` | tfapp/attendance/views.py:293-295 | regular ≤ 40, overtime ≥ 0, regular + overtime = total; no overtime up to 40 hours, 40 regular hours from 40 on |
| `AttendanceViews.ClosePayroll` | tfapp/attendance/views.py:259-295 | refused exactly when some entry of the week has a null stamp; otherwise one line per user, each the split of that user's weekly total |
| `TimeclockModels.StampListTests` | tfapp/timeclock/models.py:15-16 | the field-by-field tests are `any` and `all` over the stamp list, and a list that is not all set holds a null |
| `TimeclockModels.IsIncomplete` | tfapp/timeclock/models.py:13-16 | `is_incomplete()` holds exactly when `any` of the stamp list holds and `all` of it does not |
| `TimeclockModels.Presence` | tfapp/timeclock/models.py:15-16 | an entry is incomplete exactly when its presence pattern has both a set and an unset flag |
| `TimeclockModels.IsIncompleteMeansMixed` | tfapp/timeclock/models.py:13-16 | incomplete exactly when some stamp is set and some stamp is missing; never with no stamps or all four |
| `TimeclockModels.IsIncompleteDependsOnPresence` | tfapp/timeclock/models.py:15-16 | entries with the same stamps present get the same answer, whatever the times |
| `TimeclockModels.OutOfOrderNotFlagged` | tfapp/timeclock/models.py:13-16 | a fully stamped entry that clocks out before it clocks in is not flagged |

## Left out

- Persistence: `save()` calls are plain field updates. The model does not capture lost updates from concurrent read-modify-write of one user row.
- Django plumbing: request handling, rendering, redirects, messages, `get_object_or_404`, role-based visibility filtering and report access checks.
- Querysets: the date-range and user filters, `order_by`, and `aggregate(Sum)`. Views receive the rows they query as sequences. The pending-hours sum arrives as the number `futureHours`.
- The outer per-user loops of the dashboard and the reports page. Each builds one `(user, round(total, 2))` pair from `WeeklyTotal`.
- CSV and PDF output: `close_payroll` writes the split to CSV, and `generate_report_pdf` renders a PDF. The CSV header labels the regular-hours column `PTOTOTAL`.
- Parsing of `week_ending` and the invalid-week message in `close_payroll`. The staff check is left out too.
- Floating point: hours are exact reals, and seconds convert to hours by exact division by 3600. `round(..., 2)` is not modelled.
- Wall clock and time zones: `date.today()`, `localdate()` and `timezone.now()` become the `today` parameter.
- Date arithmetic near the ends of the calendar: day ordinals in the week and Saturday computations are unbounded integers. Python's `OverflowError` before year 1 or after year 9999 is not modelled.
- `hire_date`, `role`, `department`, the supervisor links and the timeclock login fields of `CustomUser`: the engine never reads them.
- The admin form: which occurrence fields an edit may change. `pto_applied` is written only by `Occurrence.ApplyPto`, and the occurrence's other fields are constants of the object.
- `AttendanceModels.Occurrence.ApplyPto`: does not model the fall-through of `apply_pto` for a stored subtype string in neither list (models.py:164-188), which leaves the balances and `pto_applied` as they are and saves nothing, because the subtype is the closed `OccurrenceSubtype` datatype and every value of it is in one of the two lists.
- Sub-second time: stamps are whole seconds, so the microseconds that `total_seconds()` counts are not modelled.
- `tfapp/timeclock/views.py`, `accounts/`, the `urls.py` and `forms.py` files, and `staticfiles/js/script.js` are not part of this model.
