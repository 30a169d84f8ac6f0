/**
 * The punch record of timeclock/models.py. A TimeEntry holds four optional
 * timestamps (seconds on one clock); the engine only ever asks which of them
 * are present.
 */
module TimeclockModels {
  import opened Wrappers

  datatype TimeEntry = TimeEntry(
    clockIn: Option<int>,
    lunchOut: Option<int>,
    lunchIn: Option<int>,
    clockOut: Option<int>)

  /** The four stamps in the order the source lists them: in, lunch out, lunch in, out. */
  function Stamps(e: TimeEntry): seq<Option<int>> {
    [e.clockIn, e.lunchOut, e.lunchIn, e.clockOut]
  }

  /** `any(fields)` and `all(fields)` over the stamp list, field by field. */
  predicate AnyStamped(e: TimeEntry) {
    e.clockIn.Some? || e.lunchOut.Some? || e.lunchIn.Some? || e.clockOut.Some?
  }

  predicate AllStamped(e: TimeEntry) {
    e.clockIn.Some? && e.lunchOut.Some? && e.lunchIn.Some? && e.clockOut.Some?
  }

  /** The field-by-field tests are `any` and `all` over the list, and a list that is not all set has a null. */
  lemma StampListTests(e: TimeEntry)
    ensures AnyStamped(e) <==> exists i :: 0 <= i < 4 && Stamps(e)[i].Some?
    ensures AllStamped(e) <==> forall i :: 0 <= i < 4 ==> Stamps(e)[i].Some?
    ensures !AllStamped(e) <==> exists j :: 0 <= j < 4 && Stamps(e)[j].None?
  {
    var s := Stamps(e);
    assert s[0] == e.clockIn && s[1] == e.lunchOut && s[2] == e.lunchIn && s[3] == e.clockOut;
    if exists i :: 0 <= i < 4 && s[i].Some? {
      var i :| 0 <= i < 4 && s[i].Some?;
      assert i == 0 || i == 1 || i == 2 || i == 3;
    }
    if exists j :: 0 <= j < 4 && s[j].None? {
      var j :| 0 <= j < 4 && s[j].None?;
      assert j == 0 || j == 1 || j == 2 || j == 3;
    }
  }

  /** `is_incomplete()`: `any` of the stamp list holds and `all` of it does not. */
  predicate IsIncomplete(e: TimeEntry)
    ensures IsIncomplete(e) <==>
              (exists i :: 0 <= i < 4 && Stamps(e)[i].Some?) && !(forall j :: 0 <= j < 4 ==> Stamps(e)[j].Some?)
  {
    StampListTests(e);
    AnyStamped(e) && !AllStamped(e)
  }

  /** Which of the four stamps are set; incomplete exactly when this pattern mixes set and unset. */
  function Presence(e: TimeEntry): (p: seq<bool>)
    ensures |p| == 4
    ensures forall i :: 0 <= i < 4 ==> p[i] == Stamps(e)[i].Some?
    ensures IsIncomplete(e) <==> (exists i :: 0 <= i < 4 && p[i]) && (exists j :: 0 <= j < 4 && !p[j])
  {
    StampListTests(e);
    var p := [e.clockIn.Some?, e.lunchOut.Some?, e.lunchIn.Some?, e.clockOut.Some?];
    assert forall i :: 0 <= i < 4 ==> p[i] == Stamps(e)[i].Some?;
    p
  }

  /** An entry is incomplete exactly when one stamp is set and another is missing. */
  lemma IsIncompleteMeansMixed(e: TimeEntry)
    ensures IsIncomplete(e) <==>
              (exists i :: 0 <= i < 4 && Stamps(e)[i].Some?) && (exists j :: 0 <= j < 4 && Stamps(e)[j].None?)
    ensures !AnyStamped(e) ==> !IsIncomplete(e)
    ensures AllStamped(e) ==> !IsIncomplete(e)
  {
    StampListTests(e);
  }

  /** The answer depends only on which stamps are present, never on their values or order. */
  lemma IsIncompleteDependsOnPresence(e1: TimeEntry, e2: TimeEntry)
    requires Presence(e1) == Presence(e2)
    ensures IsIncomplete(e1) == IsIncomplete(e2)
  {
    assert forall i :: 0 <= i < 4 ==> Presence(e1)[i] == Presence(e2)[i];
  }

  /** A fully stamped entry that clocks out before it clocks in is not flagged. */
  lemma OutOfOrderNotFlagged()
    ensures !IsIncomplete(TimeEntry(Some(3600), Some(1800), Some(2700), Some(0)))
  {
  }
}
