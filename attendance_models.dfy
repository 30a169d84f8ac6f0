/**
 * The two stateful records of attendance/models.py. A `User` (CustomUser) owns
 * the balance fields that accrual, the anniversary reset and the recalculation
 * pass update in place; an `Occurrence` holds a reference to its user and, when
 * applied, updates that user's balances and its own `ptoApplied` flag. Saving
 * a record is modelled as the field updates themselves; `today` is a parameter.
 */
module AttendanceModels {
  import opened Wrappers
  import opened Dates
  import opened AttendanceRules

  class User {
    // HR attributes: read by the engine, never written by it.
    const isPartTime: bool
    const isExempt: bool
    const serviceDate: Option<CalendarDate>

    // Balances, in hours.
    var ptoBalance: real
    var personalTimeBalance: real
    var finalPtoBalance: real
    var hoursWorked: real

    /** A new employee record: every balance starts at the field default 0.0. */
    constructor (isPartTime: bool, isExempt: bool, serviceDate: Option<CalendarDate>)
      ensures this.isPartTime == isPartTime && this.isExempt == isExempt && this.serviceDate == serviceDate
      ensures Ledger() == Balances(0.0, 0.0, 0.0, 0.0)
    {
      this.isPartTime := isPartTime;
      this.isExempt := isExempt;
      this.serviceDate := serviceDate;
      ptoBalance, personalTimeBalance, finalPtoBalance, hoursWorked := 0.0, 0.0, 0.0, 0.0;
    }

    /** The balance fields as one value. */
    function Ledger(): Balances
      reads this
    {
      Balances(ptoBalance, personalTimeBalance, finalPtoBalance, hoursWorked)
    }

    /** `accrue_pto(hours)`. */
    method AccruePto(hours: real, today: CalendarDate)
      modifies this
      ensures Ledger() == Accrued(old(Ledger()), isPartTime, YearsOfService(serviceDate, today), hours)
    {
      if isPartTime || YearsOfService(serviceDate, today) <= 2 {
        hoursWorked := hoursWorked + hours;
        var earned := FloorDiv(hoursWorked) as real;
        if isPartTime {
          ptoBalance := Min(ptoBalance + earned, PartTimeCap);
        } else {
          ptoBalance := ptoBalance + earned;
        }
        hoursWorked := FloorMod(hoursWorked);
      }
    }

    /** `reset_pto_at_service_anniversary()`; Fail stands for the ValueError `date.replace` raises. */
    method ResetPtoAtServiceAnniversary(today: CalendarDate) returns (r: Outcome<DateError>)
      modifies this
      ensures r.Pass? ==> AnniversaryReset(old(Ledger()), isPartTime, serviceDate, today) == Ok(Ledger())
      ensures r.Fail? ==> AnniversaryReset(old(Ledger()), isPartTime, serviceDate, today) == Err(r.error)
      ensures r.Fail? ==> Ledger() == old(Ledger())
    {
      if isPartTime || serviceDate.None? {
        return Pass;
      }
      var serviceYears := YearsOfService(serviceDate, today);
      var last := LastAnniversary(serviceDate.value, today);
      if last.Err? {
        return Fail(last.error);
      }
      if Ordinal(today) - Ordinal(last.value) < 1 {
        return Pass;
      }
      finalPtoBalance := ptoBalance;
      ptoBalance := TierAllocation(serviceYears) as real;
      return Pass;
    }

    /** `recalculate_balances()`. */
    method RecalculateBalances(today: CalendarDate)
      modifies this
      ensures Ledger() == Recalculated(old(Ledger()), isExempt, isPartTime, serviceDate.Some?,
                                       YearsOfService(serviceDate, today))
    {
      var years := YearsOfService(serviceDate, today);
      if isExempt {
        personalTimeBalance := 0.0;
        finalPtoBalance := ptoBalance;
      } else if isPartTime {
        ptoBalance := Min(ptoBalance, PartTimeCap);
        finalPtoBalance := ptoBalance;
      } else if serviceDate.Some? {
        if years == 2 {
          finalPtoBalance := ptoBalance;
        } else if years >= 3 {
          ptoBalance := Max(ptoBalance, TierFloor(years) as real);
          finalPtoBalance := ptoBalance;
        }
      }
    }
  }

  class Occurrence {
    const user: User
    const occurrenceType: OccurrenceType
    const subtype: OccurrenceSubtype
    const date: CalendarDate
    const durationHours: real
    var ptoApplied: bool

    /** A new occurrence record; `pto_applied` defaults to false. */
    constructor (user: User, occurrenceType: OccurrenceType, subtype: OccurrenceSubtype,
                 date: CalendarDate, durationHours: real)
      ensures this.user == user && this.occurrenceType == occurrenceType && this.subtype == subtype
      ensures this.date == date && this.durationHours == durationHours && !ptoApplied
    {
      this.user := user;
      this.occurrenceType := occurrenceType;
      this.subtype := subtype;
      this.date := date;
      this.durationHours := durationHours;
      ptoApplied := false;
    }

    /** `apply_pto()`: non-deducting subtypes clear the flag; deducting ones take PTO, then personal time, and set it. */
    method ApplyPto()
      modifies this, user
      ensures subtype in NonDeductingSubtypes ==> user.Ledger() == old(user.Ledger()) && !ptoApplied
      ensures subtype in DeductingSubtypes ==>
                user.Ledger() == Deduct(old(user.Ledger()), durationHours) && ptoApplied
    {
      var u := user;
      var used := durationHours;
      if subtype in NonDeductingSubtypes {
        ptoApplied := false;
        return;
      }
      if subtype in DeductingSubtypes {
        if u.ptoBalance >= used {
          u.ptoBalance := u.ptoBalance - used;
        } else {
          var remaining := used - u.ptoBalance;
          u.ptoBalance := 0.0;
          u.personalTimeBalance := u.personalTimeBalance + remaining;
        }
        ptoApplied := true;
      }
    }
  }
}
