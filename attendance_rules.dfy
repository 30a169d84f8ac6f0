/**
 * The pure rules of the PTO and personal-time engine (attendance/models.py):
 * tenure, the first-90-days grace allowance, the anniversary date, the two PTO
 * tier tables, hourly accrual, the anniversary reset, the recalculation pass,
 * the occurrence subtype classification and the PTO-then-personal-time
 * deduction. Each is a function of the balance record it updates; the classes
 * in module AttendanceModels apply them to a user in place.
 */
module AttendanceRules {
  import opened Wrappers
  import opened Dates

  /** The balance fields of one employee record, in hours. */
  datatype Balances = Balances(pto: real, personal: real, finalPto: real, hoursWorked: real)

  /** Ceiling on a part-time employee's PTO balance. */
  const PartTimeCap: real := 72.0

  function Min(a: real, b: real): real { if a <= b then a else b }
  function Max(a: real, b: real): real { if a >= b then a else b }

  /** Python's `worked // 30` on floats: the whole PTO hours `worked` hours earn. */
  function FloorDiv(worked: real): (k: int)
    ensures 30.0 * k as real <= worked < 30.0 * k as real + 30.0
  {
    (worked / 30.0).Floor
  }

  /** Python's `worked % 30` on floats: the hours that `worked // 30` leaves over. */
  function FloorMod(worked: real): (r: real)
    ensures 0.0 <= r < 30.0
    ensures worked == 30.0 * FloorDiv(worked) as real + r
  {
    worked - 30.0 * FloorDiv(worked) as real
  }

  /** `worked // 30` is the only whole number `k` with `30*k <= worked < 30*k + 30`. */
  lemma FloorDivUnique(worked: real, k: int)
    requires 30.0 * k as real <= worked < 30.0 * k as real + 30.0
    ensures FloorDiv(worked) == k
  {
  }

  // ---------------------------------------------------------------- tenure

  /** `(today - service_date).days`. */
  function DaysOfService(serviceDate: CalendarDate, today: CalendarDate): (r: int)
    ensures r == 0 <==> serviceDate == today
    ensures r > 0 <==> Before(serviceDate, today)
    ensures r < 0 <==> Before(today, serviceDate)
  {
    OrdinalOrder(serviceDate, today);
    OrdinalOrder(today, serviceDate);
    Ordinal(today) - Ordinal(serviceDate)
  }

  /** `years_of_service`: completed 365-day periods since the service date, 0 without one. */
  function YearsOfService(serviceDate: Option<CalendarDate>, today: CalendarDate): (r: int)
    ensures serviceDate.None? ==> r == 0
    ensures serviceDate.Some? ==>
              365 * r <= DaysOfService(serviceDate.value, today) < 365 * r + 365
    ensures serviceDate.Some? && !Before(today, serviceDate.value) ==> r >= 0
  {
    match serviceDate
    case None => 0
    case Some(sd) =>
      OrdinalOrder(today, sd);
      DaysOfService(sd, today) / 365
  }

  /** The grace allowance after `days` days of service. */
  function GraceForDays(days: int): (r: int)
    ensures r >= 0
    ensures days > 90 ==> r == 0
    ensures 0 <= days <= 90 ==> r <= 3 && 30 * (3 - r) <= days < 30 * (3 - r) + 30
  {
    if days <= 90 then (if 3 - days / 30 >= 0 then 3 - days / 30 else 0) else 0
  }

  /** `grace_occurrences_remaining`: 3, 2, 1, 0 over the first 90 days of service, 0 afterwards or without a service date. */
  function GraceOccurrencesRemaining(serviceDate: Option<CalendarDate>, today: CalendarDate): (r: int)
    ensures r >= 0
    ensures serviceDate.None? ==> r == 0
    ensures serviceDate.Some? ==> r == GraceForDays(DaysOfService(serviceDate.value, today))
  {
    match serviceDate
    case None => 0
    case Some(sd) => GraceForDays(DaysOfService(sd, today))
  }

  /** The allowance never grows as service lengthens. */
  lemma GraceNonIncreasing(d1: int, d2: int)
    requires d1 <= d2
    ensures GraceForDays(d2) <= GraceForDays(d1)
  {
  }

  /** Before the service date (negative days) the allowance exceeds 3: one day early it is 4. */
  lemma GraceBeforeServiceDate()
    ensures GraceForDays(-1) == 4
    ensures forall d :: d < 0 ==> GraceForDays(d) > 3
  {
  }

  // ---------------------------------------------------------------- anniversary

  /**
   * The most recent anniversary of the service date that is not after today:
   * the service date moved to this year, or to last year when that is still
   * ahead. Err when `date.replace` would raise (a 29 February service date
   * moved to a year without one, or a year before year 1).
   */
  function LastAnniversary(serviceDate: CalendarDate, today: CalendarDate): (r: Result<CalendarDate, DateError>)
    ensures r.Ok? ==> r.value.month == serviceDate.month && r.value.day == serviceDate.day
    ensures r.Ok? ==> r.value.year == today.year || r.value.year == today.year - 1
    ensures r.Ok? ==> !Before(today, r.value)
    ensures r.Ok? && r.value.year == today.year - 1 ==>
              Before(today, Date(today.year, serviceDate.month, serviceDate.day))
  {
    match ReplaceYear(serviceDate, today.year)
    case Err(e) => Err(e)
    case Ok(thisYear) =>
      if Before(today, thisYear) then ReplaceYear(serviceDate, today.year - 1) else Ok(thisYear)
  }

  /** Every service date except 29 February has an anniversary on or before any day after year 1. */
  lemma LastAnniversaryExists(serviceDate: CalendarDate, today: CalendarDate)
    requires !(serviceDate.month == 2 && serviceDate.day == 29)
    requires today.year > MinYear
    ensures LastAnniversary(serviceDate, today).Ok?
  {
  }

  /** A 29 February service date raises in every year without 29 February, and in a leap year before that day. */
  lemma LeapDayAnniversary(serviceDate: CalendarDate, today: CalendarDate)
    requires serviceDate.month == 2 && serviceDate.day == 29
    ensures LastAnniversary(serviceDate, today).Err? <==>
              !IsLeapYear(today.year) || Before(today, Date(today.year, 2, 29))
  {
    if IsLeapYear(today.year) && Before(today, Date(today.year, 2, 29)) {
      assert !IsLeapYear(today.year - 1);
    }
  }

  /** Zero days separate today from the last anniversary exactly when today is that anniversary. */
  lemma {:induction false} AnniversaryGuardMeansToday(serviceDate: CalendarDate, today: CalendarDate)
    requires LastAnniversary(serviceDate, today).Ok?
    ensures var last := LastAnniversary(serviceDate, today).value;
            (Ordinal(today) - Ordinal(last) < 1) <==> last == today
  {
    var last := LastAnniversary(serviceDate, today).value;
    OrdinalOrder(last, today);
  }

  // ---------------------------------------------------------------- tier tables

  /** The PTO the anniversary reset allocates after `years` completed years (0 before year 3). */
  function TierAllocation(years: int): (r: int)
    ensures years < 3 ==> r == 0
    ensures years >= 3 ==> 80 <= r <= 180
    ensures years >= 25 ==> r == 180
  {
    if 3 <= years <= 4 then 80
    else if 5 <= years <= 8 then 100
    else if 9 <= years <= 14 then 120
    else if 15 <= years <= 19 then 140
    else if 20 <= years <= 24 then 160
    else if years >= 25 then 180
    else 0
  }

  lemma TierAllocationMonotone(y1: int, y2: int)
    requires y1 <= y2
    ensures TierAllocation(y1) <= TierAllocation(y2)
  {
  }

  /** The minimum PTO the recalculation pass keeps for a full-time employee of 3 or more years. */
  function TierFloor(years: int): (r: int)
    requires years >= 3
    ensures 80 <= r <= 180
    ensures years >= 25 ==> r == 180
  {
    if years < 5 then 80
    else if years < 10 then 100
    else if years < 15 then 120
    else if years < 20 then 140
    else if years < 25 then 160
    else 180
  }

  lemma TierFloorMonotone(y1: int, y2: int)
    requires 3 <= y1 <= y2
    ensures TierFloor(y1) <= TierFloor(y2)
  {
  }

  /** The two tables agree at every tenure except 9 years (allocation 120, floor 100). */
  lemma TierTablesDifferOnlyAtNine(years: int)
    requires years >= 3
    ensures TierFloor(years) == TierAllocation(years) <==> years != 9
    ensures years == 9 ==> TierAllocation(years) == 120 && TierFloor(years) == 100
  {
  }

  // ---------------------------------------------------------------- accrual

  /** Whether hourly accrual applies: part-time staff, and full-time staff in their first two years. */
  predicate AccruesHourly(isPartTime: bool, years: int)
    ensures AccruesHourly(isPartTime, years) <==> isPartTime || TierAllocation(years) == 0
  {
    isPartTime || years <= 2
  }

  /** `accrue_pto(hours)`: one PTO hour per 30 hours worked, the remainder carried in the accumulator. */
  function Accrued(b: Balances, isPartTime: bool, years: int, hours: real): (r: Balances)
    ensures !AccruesHourly(isPartTime, years) ==> r == b
    ensures r.personal == b.personal && r.finalPto == b.finalPto
    ensures AccruesHourly(isPartTime, years) ==> 0.0 <= r.hoursWorked < 30.0
    ensures AccruesHourly(isPartTime, years) ==>
              r.hoursWorked + 30.0 * FloorDiv(b.hoursWorked + hours) as real
              == b.hoursWorked + hours
    ensures isPartTime ==> r.pto <= PartTimeCap
    ensures isPartTime ==>
              r.pto == Min(b.pto + FloorDiv(b.hoursWorked + hours) as real, PartTimeCap)
    ensures !isPartTime && years <= 2 ==>
              30.0 * (r.pto - b.pto) + r.hoursWorked == b.hoursWorked + hours
  {
    if AccruesHourly(isPartTime, years) then
      var worked := b.hoursWorked + hours;
      var earned := FloorDiv(worked) as real;
      var pto := if isPartTime then Min(b.pto + earned, PartTimeCap) else b.pto + earned;
      b.(pto := pto, hoursWorked := FloorMod(worked))
    else
      b
  }

  /** The PTO hours a split of `a + c` worked hours earns, given what `a` earned first. */
  lemma {:induction false} EarnedSplits(h: real, a: real, c: real)
    ensures FloorDiv(h + a) + FloorDiv(FloorMod(h + a) + c)
            == FloorDiv(h + a + c)
  {
    var k1 := FloorDiv(h + a);
    var r1 := FloorMod(h + a);
    var k2 := FloorDiv(r1 + c);
    var r2 := FloorMod(r1 + c);
    assert h + a + c == 30.0 * (k1 + k2) as real + r2;
    FloorDivUnique(h + a + c, k1 + k2);
  }

  /** For a full-time employee in the first two years, accruing `a` then `c` equals accruing `a + c`. */
  lemma {:induction false} AccrualAdditiveFullTime(b: Balances, years: int, a: real, c: real)
    requires years <= 2
    ensures Accrued(Accrued(b, false, years, a), false, years, c) == Accrued(b, false, years, a + c)
  {
    EarnedSplits(b.hoursWorked, a, c);
  }

  /** For a part-time employee the same holds when the second batch of hours is not negative. */
  lemma {:induction false} AccrualAdditivePartTime(b: Balances, years: int, a: real, c: real)
    requires c >= 0.0
    ensures Accrued(Accrued(b, true, years, a), true, years, c) == Accrued(b, true, years, a + c)
  {
    EarnedSplits(b.hoursWorked, a, c);
    var r1 := FloorMod(b.hoursWorked + a);
    assert FloorDiv(r1 + c) >= 0;
  }

  /** Accrual of each batch of reported hours in turn. */
  function AccruedAll(b: Balances, isPartTime: bool, years: int, batches: seq<real>): Balances
    decreases |batches|
  {
    if batches == [] then b
    else AccruedAll(Accrued(b, isPartTime, years, batches[0]), isPartTime, years, batches[1..])
  }

  function Total(xs: seq<real>): real
    decreases |xs|
  {
    if xs == [] then 0.0 else xs[0] + Total(xs[1..])
  }

  /** Any sequence of accruals for an early-tenure full-time employee equals one accrual of the total. */
  lemma {:induction false} AccruedAllIsOneAccrual(b: Balances, years: int, batches: seq<real>)
    requires years <= 2
    requires batches != []
    ensures AccruedAll(b, false, years, batches) == Accrued(b, false, years, Total(batches))
    decreases |batches|
  {
    if |batches| > 1 {
      var b1 := Accrued(b, false, years, batches[0]);
      AccruedAllIsOneAccrual(b1, years, batches[1..]);
      AccrualAdditiveFullTime(b, years, batches[0], Total(batches[1..]));
    }
  }

  /** Part-time staff keep 0 <= PTO <= 72 and 0 <= accumulator < 30 through any sequence of non-negative reports. */
  lemma {:induction false} PartTimeAccrualStaysInRange(b: Balances, years: int, batches: seq<real>)
    requires 0.0 <= b.pto <= PartTimeCap && 0.0 <= b.hoursWorked < 30.0
    requires forall i :: 0 <= i < |batches| ==> batches[i] >= 0.0
    ensures var r := AccruedAll(b, true, years, batches);
            0.0 <= r.pto <= PartTimeCap && 0.0 <= r.hoursWorked < 30.0
    decreases |batches|
  {
    if batches != [] {
      var b1 := Accrued(b, true, years, batches[0]);
      assert FloorDiv(b.hoursWorked + batches[0]) >= 0;
      PartTimeAccrualStaysInRange(b1, years, batches[1..]);
    }
  }

  /** 28 carried + 5 reported hours earn one PTO hour and carry 3; a part-time 71 + 1 stops at the 72 cap. */
  lemma AccrualExamples(b: Balances)
    ensures var r := Accrued(b.(hoursWorked := 28.0), false, 1, 5.0);
            r.hoursWorked == 3.0 && r.pto == b.pto + 1.0
    ensures var r := Accrued(b.(pto := 71.0, hoursWorked := 29.0), true, 0, 2.0);
            r.hoursWorked == 1.0 && r.pto == 72.0
  {
    FloorDivUnique(33.0, 1);
    FloorDivUnique(31.0, 1);
  }

  // ---------------------------------------------------------------- anniversary reset

  /**
   * `reset_pto_at_service_anniversary`: for a full-time employee with a service
   * date, snapshot PTO into the final balance and overwrite PTO with the tier
   * allocation, on every day except the anniversary itself. Err when the
   * anniversary date cannot be formed.
   */
  function AnniversaryReset(b: Balances, isPartTime: bool, serviceDate: Option<CalendarDate>, today: CalendarDate)
    : (r: Result<Balances, DateError>)
    ensures (isPartTime || serviceDate.None?) ==> r == Ok(b)
    ensures !isPartTime && serviceDate.Some? ==>
              match LastAnniversary(serviceDate.value, today)
              case Err(e) => r == Err(e)
              case Ok(last) =>
                (last == today ==> r == Ok(b)) &&
                (last != today ==>
                   r == Ok(b.(finalPto := b.pto,
                              pto := TierAllocation(YearsOfService(serviceDate, today)) as real)))
  {
    if (isPartTime || serviceDate.None?) then Ok(b)
    else
      var years := YearsOfService(serviceDate, today);
      match LastAnniversary(serviceDate.value, today)
      case Err(e) => Err(e)
      case Ok(last) =>
        AnniversaryGuardMeansToday(serviceDate.value, today);
        if Ordinal(today) - Ordinal(last) < 1 then Ok(b)
        else Ok(b.(finalPto := b.pto, pto := TierAllocation(years) as real))
  }

  /** A successful reset leaves the personal balance and the accumulator alone, and PTO becomes 0 or a tier value. */
  lemma ResetTouchesOnlyPto(b: Balances, isPartTime: bool, serviceDate: Option<CalendarDate>, today: CalendarDate)
    requires AnniversaryReset(b, isPartTime, serviceDate, today).Ok?
    ensures var r := AnniversaryReset(b, isPartTime, serviceDate, today).value;
            r.personal == b.personal && r.hoursWorked == b.hoursWorked &&
            (r == b || (r.finalPto == b.pto && r.pto in {0.0, 80.0, 100.0, 120.0, 140.0, 160.0, 180.0}))
  {
  }

  /** A full-time employee in years 0-2 who is reset on any day but the anniversary loses all PTO. */
  lemma EarlyTenureResetZeroesPto(b: Balances, serviceDate: CalendarDate, today: CalendarDate)
    requires YearsOfService(Some(serviceDate), today) <= 2
    requires LastAnniversary(serviceDate, today).Ok? && LastAnniversary(serviceDate, today).value != today
    ensures AnniversaryReset(b, false, Some(serviceDate), today) == Ok(b.(finalPto := b.pto, pto := 0.0))
  {
  }

  /** Running the reset twice on a day other than the anniversary: the second run overwrites the snapshot with the allocation. */
  lemma ResetTwiceLosesSnapshot(b: Balances, serviceDate: CalendarDate, today: CalendarDate)
    requires LastAnniversary(serviceDate, today).Ok? && LastAnniversary(serviceDate, today).value != today
    ensures var once := AnniversaryReset(b, false, Some(serviceDate), today).value;
            var twice := AnniversaryReset(once, false, Some(serviceDate), today).value;
            twice.pto == once.pto && twice.finalPto == once.pto
  {
  }

  /**
   * Four completed years on the anniversary itself: the reset keeps the balance
   * of 50; the day after, it snapshots 50 and allocates 80.
   */
  lemma AnniversaryDayExample(b: Balances)
    requires b.pto == 50.0
    ensures YearsOfService(Some(Date(2020, 3, 10)), Date(2024, 3, 10)) == 4
    ensures AnniversaryReset(b, false, Some(Date(2020, 3, 10)), Date(2024, 3, 10)) == Ok(b)
    ensures AnniversaryReset(b, false, Some(Date(2020, 3, 10)), Date(2024, 3, 11))
            == Ok(b.(finalPto := 50.0, pto := 80.0))
  {
  }

  // ---------------------------------------------------------------- recalculation

  /**
   * `recalculate_balances`: exempt staff lose their personal balance, part-time
   * PTO is capped at 72, full-time staff of 3 or more years are raised to the
   * tier floor; each of these and the 2-year case sync the final balance.
   */
  function Recalculated(b: Balances, isExempt: bool, isPartTime: bool, hasServiceDate: bool, years: int): (r: Balances)
    ensures r.hoursWorked == b.hoursWorked
    ensures isExempt ==> r == b.(personal := 0.0, finalPto := b.pto)
    ensures !isExempt && isPartTime ==>
              r.pto == Min(b.pto, PartTimeCap) &&
              r.pto <= PartTimeCap && (r.pto == b.pto <==> b.pto <= PartTimeCap) &&
              r.personal == b.personal && r.finalPto == r.pto
    ensures !isExempt && !isPartTime && hasServiceDate && years == 2 ==> r == b.(finalPto := b.pto)
    ensures !isExempt && !isPartTime && hasServiceDate && years >= 3 ==>
              r.pto >= b.pto && r.pto >= TierFloor(years) as real &&
              (r.pto == b.pto || r.pto == TierFloor(years) as real) &&
              r.personal == b.personal && r.finalPto == r.pto
    ensures !isExempt && !isPartTime && (!hasServiceDate || years < 2) ==> r == b
  {
    if isExempt then
      b.(personal := 0.0, finalPto := b.pto)
    else if isPartTime then
      var pto := Min(b.pto, PartTimeCap);
      b.(pto := pto, finalPto := pto)
    else if hasServiceDate then
      if years == 2 then b.(finalPto := b.pto)
      else if years >= 3 then
        var pto := Max(b.pto, TierFloor(years) as real);
        b.(pto := pto, finalPto := pto)
      else b
    else
      b
  }

  /** Recalculating twice gives the same balances as recalculating once. */
  lemma RecalculateIdempotent(b: Balances, isExempt: bool, isPartTime: bool, hasServiceDate: bool, years: int)
    ensures var once := Recalculated(b, isExempt, isPartTime, hasServiceDate, years);
            Recalculated(once, isExempt, isPartTime, hasServiceDate, years) == once
  {
  }

  /** The pass never lowers PTO except through the part-time cap. */
  lemma RecalculateLowersOnlyPartTime(b: Balances, isExempt: bool, isPartTime: bool, hasServiceDate: bool, years: int)
    ensures var r := Recalculated(b, isExempt, isPartTime, hasServiceDate, years);
            r.pto < b.pto ==> !isExempt && isPartTime && b.pto > PartTimeCap && r.pto == PartTimeCap
  {
  }

  /** A full-time employee of 6 years holding 90 hours is raised to the floor of 100. */
  lemma RecalculationExample(b: Balances)
    requires b.pto == 90.0
    ensures Recalculated(b, false, false, true, 6).pto == 100.0
  {
  }

  // ---------------------------------------------------------------- occurrences

  /** `OccurrenceType`: informational only. */
  datatype OccurrenceType = Planned | Unplanned

  /** `OccurrenceSubtype`: the sixteen subtypes, with the value each stores. */
  datatype OccurrenceSubtype =
    | TimeOff | TardyInGrace | TardyOutOfGrace | Exchange | Fmla | LeaveOfAbsence
    | Transportation | WeatherUnpaid | WeatherPaid | BereavementPaid | BereavementUnpaid
    | JuryDutyPaid | JuryDutyUnpaid | Discipline | WorkComp | Disability
  {
    function Value(): string {
      match this
      case TimeOff => "Time Off"
      case TardyInGrace => "Tardy In Grace"
      case TardyOutOfGrace => "Tardy Out of Grace"
      case Exchange => "Exchange"
      case Fmla => "FMLA"
      case LeaveOfAbsence => "LOA"
      case Transportation => "Transportation"
      case WeatherUnpaid => "Weather Unpaid"
      case WeatherPaid => "Weather Paid"
      case BereavementPaid => "Bereavement Paid"
      case BereavementUnpaid => "Bereavement Unpaid"
      case JuryDutyPaid => "Jury Duty Paid"
      case JuryDutyUnpaid => "Jury Duty Unpaid"
      case Discipline => "Discipline"
      case WorkComp => "Work Comp"
      case Disability => "Disability"
    }
  }

  const AllSubtypes: seq<OccurrenceSubtype> :=
    [TimeOff, TardyInGrace, TardyOutOfGrace, Exchange, Fmla, LeaveOfAbsence,
     Transportation, WeatherUnpaid, WeatherPaid, BereavementPaid, BereavementUnpaid,
     JuryDutyPaid, JuryDutyUnpaid, Discipline, WorkComp, Disability]

  /** The subtypes `apply_pto` leaves balances alone for. */
  const NonDeductingSubtypes: seq<OccurrenceSubtype> :=
    [Discipline, WorkComp, Disability, TardyInGrace, BereavementUnpaid, JuryDutyUnpaid, WeatherUnpaid]

  /** The subtypes `apply_pto` deducts for. */
  const DeductingSubtypes: seq<OccurrenceSubtype> :=
    [TimeOff, TardyOutOfGrace, Exchange, Fmla, LeaveOfAbsence, Transportation,
     WeatherPaid, BereavementPaid, JuryDutyPaid]

  /** The stored values are sixteen distinct strings. */
  lemma SubtypeValuesDistinct()
    ensures |AllSubtypes| == 16
    ensures forall s :: s in AllSubtypes
    ensures forall i, j :: 0 <= i < j < |AllSubtypes| ==> AllSubtypes[i].Value() != AllSubtypes[j].Value()
  {
    forall s: OccurrenceSubtype ensures s in AllSubtypes {
      match s
      case TimeOff =>
      case TardyInGrace =>
      case TardyOutOfGrace =>
      case Exchange =>
      case Fmla =>
      case LeaveOfAbsence =>
      case Transportation =>
      case WeatherUnpaid =>
      case WeatherPaid =>
      case BereavementPaid =>
      case BereavementUnpaid =>
      case JuryDutyPaid =>
      case JuryDutyUnpaid =>
      case Discipline =>
      case WorkComp =>
      case Disability =>
    }
  }

  /** The two lists are disjoint and together name every subtype once. */
  lemma SubtypeListsPartition()
    ensures forall s: OccurrenceSubtype :: s in NonDeductingSubtypes <==> s !in DeductingSubtypes
    ensures |NonDeductingSubtypes| + |DeductingSubtypes| == |AllSubtypes|
  {
    SubtypeValuesDistinct();
    forall s: OccurrenceSubtype
      ensures s in NonDeductingSubtypes <==> s !in DeductingSubtypes
    {
      assert s in AllSubtypes;
    }
  }

  /**
   * A deducting occurrence of `used` hours: PTO first, floored at 0, with the
   * shortfall added to personal time.
   */
  function Deduct(b: Balances, used: real): (r: Balances)
    ensures r.pto == Max(b.pto - used, 0.0)
    ensures r.pto >= 0.0
    ensures (b.pto - r.pto) + (r.personal - b.personal) == used
    ensures b.pto >= used ==> r.personal == b.personal
    ensures r.finalPto == b.finalPto && r.hoursWorked == b.hoursWorked
  {
    if b.pto >= used then
      b.(pto := b.pto - used)
    else
      var remaining := used - b.pto;
      b.(pto := 0.0, personal := b.personal + remaining)
  }

  /** Applying the same occurrence twice deducts twice: the state differs from applying it once. */
  lemma {:induction false} DeductTwiceDeductsAgain(b: Balances, used: real)
    requires used != 0.0
    ensures var once := Deduct(b, used);
            var twice := Deduct(once, used);
            (b.pto - twice.pto) + (twice.personal - b.personal) == 2.0 * used && twice != once
  {
    var once := Deduct(b, used);
    var twice := Deduct(once, used);
    assert (once.pto - twice.pto) + (twice.personal - once.personal) == used;
  }

  /** 15 hours against 10 of PTO: PTO goes to 0 and personal time grows by 5. */
  lemma DeductionExample(b: Balances)
    requires b.pto == 10.0
    ensures Deduct(b, 15.0).pto == 0.0 && Deduct(b, 15.0).personal == b.personal + 5.0
  {
  }
}
