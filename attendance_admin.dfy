/**
 * The administrative entry points of attendance/admin.py: the bulk
 * "Recalculate PTO Based on Service Anniversary" action over the selected
 * users, and the occurrence admin's save hook, which applies the occurrence on
 * every save.
 */
module AttendanceAdmin {
  import opened Wrappers
  import opened Dates
  import opened AttendanceRules
  import opened AttendanceModels

  /** The action's own filter: a service date and not part-time. */
  predicate Selected(u: User)
    ensures !Selected(u) ==> forall b: Balances, today: CalendarDate ::
              AnniversaryReset(b, u.isPartTime, u.serviceDate, today) == Ok(b)
    ensures Selected(u) ==> !u.isPartTime && u.serviceDate.Some?
  {
    u.serviceDate.Some? && !u.isPartTime
  }

  /** How many of `users` the action's filter lets through. */
  function SelectedCount(users: seq<User>): (n: nat)
    ensures n <= |users|
    decreases |users|
  {
    if users == [] then 0
    else SelectedCount(users[..|users| - 1]) + (if Selected(users[|users| - 1]) then 1 else 0)
  }

  /** The count over two batches of users is the sum of their counts. */
  lemma {:induction false} SelectedCountAppend(a: seq<User>, b: seq<User>)
    ensures SelectedCount(a + b) == SelectedCount(a) + SelectedCount(b)
    decreases |b|
  {
    if b == [] {
      assert a + b == a;
    } else {
      var b' := b[..|b| - 1];
      assert (a + b)[..|a + b| - 1] == a + b';
      SelectedCountAppend(a, b');
    }
  }

  /** Taking row `j` out of a batch takes one copy of that user out of its multiset. */
  lemma RemoveAt(b: seq<User>, j: int)
    requires 0 <= j < |b|
    ensures b == b[..j] + [b[j]] + b[j + 1..]
    ensures multiset(b[..j] + b[j + 1..]) == multiset(b) - multiset{b[j]}
  {
    assert b == b[..j] + [b[j]] + b[j + 1..];
    assert multiset(b) == multiset(b[..j]) + multiset{b[j]} + multiset(b[j + 1..]);
  }

  /** Taking row `j` out of a batch takes that user's share out of the count. */
  lemma SelectedCountRemoveAt(b: seq<User>, j: int)
    requires 0 <= j < |b|
    ensures SelectedCount(b) == SelectedCount(b[..j] + b[j + 1..]) + if Selected(b[j]) then 1 else 0
  {
    var b1, x, b2 := b[..j], b[j], b[j + 1..];
    RemoveAt(b, j);
    assert [x][..0] == [];
    SelectedCountAppend(b1, [x]);
    SelectedCountAppend(b1 + [x], b2);
    SelectedCountAppend(b1, b2);
  }

  /** The reported count does not depend on the order the queryset yields the users in. */
  lemma {:induction false} SelectedCountIgnoresOrder(a: seq<User>, b: seq<User>)
    requires multiset(a) == multiset(b)
    ensures SelectedCount(a) == SelectedCount(b)
    decreases |a|
  {
    if a == [] {
      assert |b| == |multiset(b)| == 0;
    } else {
      var x := a[|a| - 1];
      RemoveAt(a, |a| - 1);
      assert x in multiset(b);
      var j :| 0 <= j < |b| && b[j] == x;
      RemoveAt(b, j);
      SelectedCountIgnoresOrder(a[..|a| - 1], b[..j] + b[j + 1..]);
      SelectedCountRemoveAt(a, |a| - 1);
      SelectedCountRemoveAt(b, j);
    }
  }

  /** The count is zero exactly when no user passes the filter. */
  lemma {:induction false} SelectedCountZero(users: seq<User>)
    ensures SelectedCount(users) == 0 <==> forall i :: 0 <= i < |users| ==> !Selected(users[i])
    decreases |users|
  {
    if users != [] {
      var init := users[..|users| - 1];
      SelectedCountZero(init);
      assert forall i :: 0 <= i < |init| ==> init[i] == users[i];
    }
  }

  /** `u`'s balances are what the anniversary reset makes of `before`. */
  predicate WasReset(u: User, before: Balances, today: CalendarDate)
    reads u
  {
    AnniversaryReset(before, u.isPartTime, u.serviceDate, today) == Ok(u.Ledger())
  }

  /** The result of the action: the count it reports, or the error that stopped it at one user. */
  datatype ActionResult = Done(updatedCount: nat) | Raised(at: nat, error: DateError)

  /**
   * `recalculate_pto`: resets every selected user in turn and counts them, whether
   * or not the reset changed anything. A ValueError from one user's reset stops
   * the loop; the users before it keep their new balances.
   */
  method RecalculatePto(users: seq<User>, today: CalendarDate) returns (r: ActionResult)
    requires forall i, j :: 0 <= i < j < |users| ==> users[i] != users[j]
    modifies users
    ensures r.Done? ==> r.updatedCount == SelectedCount(users)
    ensures r.Done? ==> forall i :: 0 <= i < |users| ==> WasReset(users[i], old(users[i].Ledger()), today)
    ensures r.Raised? ==> r.at < |users| && Selected(users[r.at])
    ensures r.Raised? ==>
              AnniversaryReset(old(users[r.at].Ledger()), users[r.at].isPartTime, users[r.at].serviceDate, today)
              == Err(r.error)
    ensures r.Raised? ==> forall i :: 0 <= i < r.at ==> WasReset(users[i], old(users[i].Ledger()), today)
    ensures r.Raised? ==> forall i :: r.at <= i < |users| ==> users[i].Ledger() == old(users[i].Ledger())
    ensures forall i :: 0 <= i < |users| && !Selected(users[i]) ==> users[i].Ledger() == old(users[i].Ledger())
  {
    ghost var expected := seq(|users|, i requires 0 <= i < |users| reads users =>
      AnniversaryReset(users[i].Ledger(), users[i].isPartTime, users[i].serviceDate, today));
    var updatedCount := 0;
    var k := 0;
    while k < |users|
      invariant 0 <= k <= |users|
      invariant updatedCount == SelectedCount(users[..k])
      invariant forall i :: 0 <= i < k ==> expected[i] == Ok(users[i].Ledger())
      invariant forall i :: k <= i < |users| ==> users[i].Ledger() == old(users[i].Ledger())
    {
      var user := users[k];
      assert users[..k + 1][..k] == users[..k];
      assert SelectedCount(users[..k + 1]) == updatedCount + if Selected(user) then 1 else 0;
      if user.serviceDate.Some? && !user.isPartTime {
        label before:
        var outcome := user.ResetPtoAtServiceAnniversary(today);
        if outcome.Fail? {
          return Raised(k, outcome.error);
        }
        forall i | 0 <= i < |users| && i != k
          ensures users[i].Ledger() == old@before(users[i].Ledger())
        {
          assert users[i] != user;
        }
        updatedCount := updatedCount + 1;
      }
      assert expected[k] == Ok(user.Ledger());
      assert updatedCount == SelectedCount(users[..k + 1]);
      k := k + 1;
    }
    assert users[..k] == users;
    return Done(updatedCount);
  }

  /** `OccurrenceAdmin.save_model`: every save, a new record or an edit, applies the occurrence again. */
  method SaveModel(obj: Occurrence, change: bool)
    modifies obj, obj.user
    ensures obj.subtype in NonDeductingSubtypes ==> obj.user.Ledger() == old(obj.user.Ledger()) && !obj.ptoApplied
    ensures obj.subtype in DeductingSubtypes ==>
              obj.user.Ledger() == Deduct(old(obj.user.Ledger()), obj.durationHours) && obj.ptoApplied
  {
    obj.ApplyPto();
  }
}
