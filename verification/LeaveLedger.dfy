/** What every sequence of create, update and delete keeps: the table constraints, the parents'
    derived columns, disjoint slots, and, for ordinary callers, leave that has already started. */
module LeaveLedger {
  import opened Prelude
  import opened Leave
  import opened LeaveMerge

  // ----- half-day units -----

  /** The halves a day entry occupies, numbered 2 * date and 2 * date + 1. */
  function Units(e: Entry): set<int> {
    if e.portion == Full then {2 * e.date, 2 * e.date + 1}
    else if e.half == Some(First) then {2 * e.date}
    else {2 * e.date + 1}
  }

  function AllUnits(es: seq<Entry>): set<int> {
    if es == [] then {} else AllUnits(es[..|es| - 1]) + Units(es[|es| - 1])
  }

  /** A half-day lasts twelve hours, and the one numbered x begins x of them after day zero. */
  const HALF_DAY: int := 12 * 3600 * 1_000_000

  predicate HasBegun(e: Entry, t: Time) {
    exists x :: x in Units(e) && x * HALF_DAY <= t
  }

  /** A period starts with the first of its halves. */
  lemma PeriodStartsWithItsFirstHalf(e: Entry)
    ensures forall x | x in Units(e) :: PeriodStart(e) <= x * HALF_DAY
    ensures exists x :: x in Units(e) && PeriodStart(e) == x * HALF_DAY
    ensures forall t :: HasBegun(e, t) <==> PeriodStart(e) <= t
  {
    var first := if e.portion == Full || e.half == Some(First) then 2 * e.date else 2 * e.date + 1;
    assert first in Units(e) && PeriodStart(e) == first * HALF_DAY;
    forall t
      ensures HasBegun(e, t) <==> PeriodStart(e) <= t
    {
      assert PeriodStart(e) <= t ==> first in Units(e) && first * HALF_DAY <= t;
    }
  }

  /** The stored range is the same set of halves, counted from the day's first. */
  lemma SlotIsItsHalves(e: Entry, x: int)
    ensures x in Units(e) <==> BuildSlot(e).lo <= x - 2 * e.date < BuildSlot(e).hi
  {}

  predicate Apart(a: Entry, b: Entry) {
    a.date != b.date || !Overlap(BuildSlot(a), BuildSlot(b))
  }

  ghost predicate Disjoint(es: seq<Entry>) {
    forall i, j | 0 <= i < j < |es| :: Apart(es[i], es[j])
  }

  lemma {:induction false} UnitOfSome(es: seq<Entry>, x: int)
    ensures x in AllUnits(es) <==> exists e :: e in es && x in Units(e)
  {
    if es != [] {
      var front, last := es[..|es| - 1], es[|es| - 1];
      assert es == front + [last];
      UnitOfSome(front, x);
    }
  }

  /** Two entries are apart exactly when no half is in both. */
  lemma ApartIsNoCommonHalf(a: Entry, b: Entry)
    ensures Apart(a, b) <==> Units(a) !! Units(b)
  {
    if !Apart(a, b) {
      var x := 2 * a.date + if BuildSlot(a).lo > BuildSlot(b).lo then BuildSlot(a).lo else BuildSlot(b).lo;
      SlotIsItsHalves(a, x);
      SlotIsItsHalves(b, x);
    }
  }

  /** Disjoint entries last as long as the halves they cover. */
  lemma {:induction false} TotalCountsUnits(es: seq<Entry>)
    requires Disjoint(es)
    ensures TotalHalfDays(es) == |AllUnits(es)|
  {
    if es != [] {
      var front, last := es[..|es| - 1], es[|es| - 1];
      TotalCountsUnits(front);
      forall e | e in front
        ensures Apart(e, last)
      {
        var i :| 0 <= i < |front| && front[i] == e;
        assert Apart(es[i], es[|es| - 1]);
      }
      LastUnitsAreNew(front, last);
      UnitsOfOne(last);
    }
  }

  lemma UnitsOfOne(e: Entry)
    ensures |Units(e)| == HalfDays(e)
  {}

  lemma LastUnitsAreNew(front: seq<Entry>, last: Entry)
    requires forall e | e in front :: Apart(e, last)
    ensures AllUnits(front) !! Units(last)
  {
    forall x | x in AllUnits(front)
      ensures x !in Units(last)
    {
      UnitOfSome(front, x);
      var e :| e in front && x in Units(e);
      assert Apart(e, last);
    }
  }

  /** The derived columns depend only on which days a leave has. */
  lemma SameDaysSameSummary(a: seq<Entry>, b: seq<Entry>)
    requires a != [] && b != [] && Disjoint(a) && Disjoint(b) && forall e :: e in a <==> e in b
    ensures FirstDay(a).date == FirstDay(b).date && LastDate(a) == LastDate(b)
    ensures TotalHalfDays(a) == TotalHalfDays(b)
  {
    forall x
      ensures x in AllUnits(a) <==> x in AllUnits(b)
    {
      UnitOfSome(a, x);
      UnitOfSome(b, x);
    }
    TotalCountsUnits(a);
    TotalCountsUnits(b);
    assert AllUnits(a) == AllUnits(b);
  }

  // ----- the entries of selected rows -----

  lemma {:induction false} SelectedAreDisjoint(days: seq<Day>, keep: Day -> bool)
    requires forall i, j | 0 <= i < j < |days| && keep(days[i]) && keep(days[j]) :: Apart(days[i].entry, days[j].entry)
    ensures Disjoint(Entries(days, keep))
  {
    if days != [] {
      var front, last := days[..|days| - 1], days[|days| - 1];
      SelectedAreDisjoint(front, keep);
      var es := Entries(front, keep);
      if keep(last) {
        forall i | 0 <= i < |es|
          ensures Apart(es[i], last.entry)
        {
          EntriesMember(front, keep, es[i]);
          var k :| Selects(front, keep, es[i], k);
          assert Apart(days[k].entry, days[|days| - 1].entry);
        }
      }
    }
  }

  /** Rows that are not selected, before and after, do not matter. */
  lemma {:induction false} EntriesUnaffected(days: seq<Day>, after: seq<Day>, keep: Day -> bool)
    requires |days| <= |after|
    requires forall i | 0 <= i < |days| :: keep(days[i]) == keep(after[i])
    requires forall i | 0 <= i < |days| && keep(days[i]) :: days[i].entry == after[i].entry
    requires forall i | |days| <= i < |after| :: !keep(after[i])
    ensures Entries(after, keep) == Entries(days, keep)
    decreases |after|
  {
    if |days| < |after| {
      EntriesUnaffected(days, after[..|after| - 1], keep);
    } else if days != [] {
      EntriesUnaffected(days[..|days| - 1], after[..|after| - 1], keep);
    }
  }

  lemma {:induction false} EntriesOfNewDays(days: seq<Day>, leave: LeaveId, user: UserId, es: seq<Entry>)
    requires forall i | 0 <= i < |days| :: days[i].leave != leave
    ensures ActiveEntries(days + NewDays(leave, user, es), leave) == es
    decreases |es|
  {
    if es == [] {
      assert days + NewDays(leave, user, es) == days;
      EntriesUnaffected([], days, ActiveOf(leave));
    } else {
      var front, last := es[..|es| - 1], es[|es| - 1];
      EntriesOfNewDays(days, leave, user, front);
      var all := days + NewDays(leave, user, es);
      assert all[..|all| - 1] == days + NewDays(leave, user, front);
      assert all[|all| - 1] == NewDay(leave, user, last);
    }
  }

  // ----- the invariant -----

  ghost predicate RowInv(l: Ledger, d: Day) {
    && d.leave in l.leaves && d.user == l.leaves[d.leave].user
    && d.slot == BuildSlot(d.entry)
    && (d.deletedAt.None? ==> l.leaves[d.leave].deletedAt.None?)
  }

  ghost predicate Summary(l: Ledger, id: LeaveId)
    requires id in l.leaves
  {
    var es := ActiveEntries(l.days, id);
    && es != []
    && l.leaves[id].startDate == FirstDay(es).date
    && l.leaves[id].endDate == LastDate(es)
    && l.leaves[id].total == TotalHalfDays(es)
  }

  ghost predicate Inv(l: Ledger) {
    && ConstraintsHold(l.days)
    && (forall i | 0 <= i < |l.days| :: RowInv(l, l.days[i]))
    && (forall id | id in l.leaves && l.leaves[id].deletedAt.None? :: Summary(l, id))
  }

  /** What the request schema promises of a list of days. */
  ghost predicate ValidPayload(es: seq<Entry>) {
    DistinctDates(es) && forall e | e in es :: WellFormed(e)
  }

  lemma LeaveDaysAreDisjoint(days: seq<Day>, id: LeaveId)
    requires Unique(days)
    ensures Disjoint(ActiveEntries(days, id))
  {
    SelectedAreDisjoint(days, ActiveOf(id));
  }

  lemma DistinctDatesAreDisjoint(es: seq<Entry>)
    requires DistinctDates(es)
    ensures Disjoint(es)
  {
  }

  // ----- the service's check implies the table's constraints -----

  /** A row that the overlap check has cleared shares no half with any active row of the user. */
  lemma ClearedRowFits(days: seq<Day>, user: UserId, e: Entry, excluded: Option<LeaveId>, leave: LeaveId, i: nat)
    requires i < |days| && !HasOverlappingLeave(days, user, e, excluded) && Some(days[i].leave) != excluded
    ensures Compatible(days[i], NewDay(leave, user, e))
  {
  }

  lemma CreateFitsConstraints(l: Ledger, id: LeaveId, caller: Caller, es: seq<Entry>, leaveType: LeaveType,
                              reason: Option<string>, now: Time)
    requires Inv(l) && id !in l.leaves && ValidPayload(es) && RefuseCreate(l, caller, es, now).None?
    ensures ConstraintsHold(Created(l, id, caller.id, caller.org.value, es, leaveType, reason).days)
  {
    var n, after := |l.days|, l.days + NewDays(id, caller.id, es);
    forall i, j | 0 <= i < j < |after|
      ensures after[i].leave != after[j].leave || after[i].entry.date != after[j].entry.date
      ensures Compatible(after[i], after[j])
    {
      PairFits(l, id, caller.id, es, i, j);
    }
    forall i | 0 <= i < |after|
      ensures WellFormed(after[i].entry)
    {
      if i >= n { assert es[i - n] in es; }
    }
  }

  /** Two stored rows, a stored one and a new one, or two new ones. */
  lemma PairFits(l: Ledger, id: LeaveId, user: UserId, es: seq<Entry>, i: nat, j: nat)
    requires Inv(l) && id !in l.leaves && DistinctDates(es)
    requires forall e | e in es :: !HasOverlappingLeave(l.days, user, e, None)
    requires i < j < |l.days + NewDays(id, user, es)|
    ensures var after := l.days + NewDays(id, user, es);
            (after[i].leave != after[j].leave || after[i].entry.date != after[j].entry.date)
            && Compatible(after[i], after[j])
  {
    var n, after := |l.days|, l.days + NewDays(id, user, es);
    if j < n {
      assert after[i] == l.days[i] && after[j] == l.days[j];
      assert Compatible(l.days[i], l.days[j]);
    } else if i < n {
      assert RowInv(l, l.days[i]);
      assert es[j - n] in es;
      ClearedRowFits(l.days, user, es[j - n], None, id, i);
    } else {
      assert es[i - n].date != es[j - n].date;
    }
  }

  lemma RescheduleFitsConstraints(l: Ledger, id: LeaveId, es: seq<Entry>, actor: UserId, now: Time)
    requires Inv(l) && id in l.leaves && ValidPayload(es)
    requires forall e | e in es :: !HasOverlappingLeave(l.days, l.leaves[id].user, e, Some(id))
    ensures ConstraintsHold(Rescheduled(l.days, id, l.leaves[id].user, es, actor, now))
  {
    var user := l.leaves[id].user;
    var n, after := |l.days|, Rescheduled(l.days, id, user, es, actor, now);
    MergeRowByRow(l.days, id, user, es, actor, now);
    assert forall i | 0 <= i < n :: RowInv(l, l.days[i]);
    forall i, j | 0 <= i < |after| && 0 <= j < |after| && i != j && after[j].leave == id
      ensures Compatible(after[i], after[j])
    {
      if after[j].deletedAt.None? {
        assert after[j].entry in es && after[j].slot == BuildSlot(after[j].entry);
        if after[i].leave == id {
          assert after[i].entry.date != after[j].entry.date;
        } else {
          ClearedRowFits(l.days, user, after[j].entry, Some(id), id, i);
        }
      }
    }
    forall i, j | 0 <= i < j < |after|
      ensures Compatible(after[i], after[j])
    {
      if after[i].leave != id && after[j].leave != id {
        assert Compatible(l.days[i], l.days[j]);
      } else if after[i].leave == id {
        assert Compatible(after[j], after[i]);
      }
    }
  }

  // ----- each operation keeps the invariant -----

  lemma CreateKeepsInv(l: Ledger, id: LeaveId, caller: Caller, es: seq<Entry>, leaveType: LeaveType,
                       reason: Option<string>, now: Time)
    requires Inv(l) && id !in l.leaves
    ensures var r := Create(l, id, caller, es, leaveType, reason, now); r.Ok? ==> Inv(r.value)
  {
    var r := Create(l, id, caller, es, leaveType, reason, now);
    if r.Ok? {
      var l' := r.value;
      assert forall i | 0 <= i < |l.days| :: RowInv(l, l.days[i]);
      forall i | 0 <= i < |l'.days|
        ensures RowInv(l', l'.days[i])
      {
        assert i < |l.days| ==> RowInv(l, l.days[i]);
      }
      forall other | other in l'.leaves && l'.leaves[other].deletedAt.None?
        ensures Summary(l', other)
      {
        if other == id {
          EntriesOfNewDays(l.days, id, caller.id, es);
        } else {
          assert Summary(l, other);
          EntriesUnaffected(l.days, l'.days, ActiveOf(other));
        }
      }
    }
  }

  lemma OtherLeavesKeepTheirDays(l: Ledger, id: LeaveId, es: seq<Entry>, actor: UserId, now: Time, other: LeaveId)
    requires Inv(l) && id in l.leaves && DistinctDates(es) && other != id
    ensures ActiveEntries(Rescheduled(l.days, id, l.leaves[id].user, es, actor, now), other) ==
            ActiveEntries(l.days, other)
  {
    MergeRowByRow(l.days, id, l.leaves[id].user, es, actor, now);
    EntriesUnaffected(l.days, Rescheduled(l.days, id, l.leaves[id].user, es, actor, now), ActiveOf(other));
  }

  lemma RescheduledRow(l: Ledger, id: LeaveId, es: seq<Entry>, actor: UserId, now: Time, i: nat)
    requires Inv(l) && id in l.leaves && l.leaves[id].deletedAt.None? && DistinctDates(es)
    requires i < |Rescheduled(l.days, id, l.leaves[id].user, es, actor, now)|
    ensures RowInv(l, Rescheduled(l.days, id, l.leaves[id].user, es, actor, now)[i])
  {
    MergeRowByRow(l.days, id, l.leaves[id].user, es, actor, now);
    assert i < |l.days| ==> RowInv(l, l.days[i]);
  }

  lemma RescheduleKeepsRows(l: Ledger, id: LeaveId, u: Update, caller: Caller, now: Time)
    requires Inv(l) && id in l.leaves && l.leaves[id].deletedAt.None?
    requires u.days.Some? && u.days.value != [] && DistinctDates(u.days.value)
    ensures var l' := Updated(l, id, u, caller, now); forall i | 0 <= i < |l'.days| :: RowInv(l', l'.days[i])
  {
    var l' := Updated(l, id, u, caller, now);
    forall i | 0 <= i < |l'.days|
      ensures RowInv(l', l'.days[i])
    {
      RescheduledRow(l, id, u.days.value, caller.id, now, i);
    }
  }

  lemma RescheduleKeepsSummary(l: Ledger, id: LeaveId, es: seq<Entry>, actor: UserId, now: Time)
    requires Unique(l.days) && id in l.leaves && es != [] && DistinctDates(es)
    ensures var active := ActiveEntries(Rescheduled(l.days, id, l.leaves[id].user, es, actor, now), id);
            && active != []
            && FirstDay(active).date == FirstDay(es).date && LastDate(active) == LastDate(es)
            && TotalHalfDays(active) == TotalHalfDays(es)
  {
    var user := l.leaves[id].user;
    var after := Rescheduled(l.days, id, user, es, actor, now);
    var active := ActiveEntries(after, id);
    forall e
      ensures e in active <==> e in es
    {
      ActiveRowsArePayload(l.days, id, user, es, actor, now, e);
    }
    assert es[0] in active;
    MergeRowByRow(l.days, id, user, es, actor, now);
    LeaveDaysAreDisjoint(after, id);
    DistinctDatesAreDisjoint(es);
    SameDaysSameSummary(active, es);
  }

  lemma UpdateKeepsSummary(l: Ledger, id: LeaveId, u: Update, caller: Caller, now: Time, other: LeaveId)
    requires Inv(l) && id in l.leaves && l.leaves[id].deletedAt.None?
    requires u.days.Some? ==> u.days.value != [] && DistinctDates(u.days.value)
    requires other in l.leaves && l.leaves[other].deletedAt.None?
    ensures other in Updated(l, id, u, caller, now).leaves && Summary(Updated(l, id, u, caller, now), other)
  {
    assert Summary(l, other);
    if u.days.Some? {
      if other == id {
        RescheduleKeepsSummary(l, id, u.days.value, caller.id, now);
      } else {
        OtherLeavesKeepTheirDays(l, id, u.days.value, caller.id, now, other);
      }
    }
  }

  lemma UpdateKeepsInv(l: Ledger, id: LeaveId, u: Update, caller: Caller, now: Time)
    requires Inv(l) && (u.days.Some? ==> DistinctDates(u.days.value))
    ensures var r := UpdateLeave(l, id, u, caller, now); r.Ok? ==> Inv(r.value)
  {
    var r := UpdateLeave(l, id, u, caller, now);
    if r.Ok? {
      var l' := r.value;
      if u.days.Some? {
        RescheduleKeepsRows(l, id, u, caller, now);
      } else {
        assert forall i | 0 <= i < |l.days| :: RowInv(l, l.days[i]);
      }
      forall other | other in l'.leaves && l'.leaves[other].deletedAt.None?
        ensures Summary(l', other)
      {
        UpdateKeepsSummary(l, id, u, caller, now, other);
      }
    }
  }

  /** Rows that are deleted, and no others, change nothing that the table constraints see. */
  lemma DeletedRowsFit(days: seq<Day>, leave: LeaveId, actor: UserId, now: Time)
    requires ConstraintsHold(days)
    ensures ConstraintsHold(DropAll(days, leave, actor, now))
  {
    var after := DropAll(days, leave, actor, now);
    forall i, j | 0 <= i < j < |after|
      ensures Compatible(after[i], after[j])
    {
      assert Compatible(days[i], days[j]);
    }
  }

  lemma DeleteKeepsSummary(l: Ledger, l': Ledger, id: LeaveId, actor: UserId, now: Time, other: LeaveId)
    requires Inv(l) && other in l.leaves && l.leaves[other].deletedAt.None? && other != id
    requires other in l'.leaves && l'.leaves[other] == l.leaves[other] && l'.days == DropAll(l.days, id, actor, now)
    ensures Summary(l', other)
  {
    assert Summary(l, other);
    EntriesUnaffected(l.days, l'.days, ActiveOf(other));
  }

  lemma DeleteKeepsInv(l: Ledger, id: LeaveId, caller: Caller, now: Time)
    requires Inv(l)
    ensures var r := DeleteLeave(l, id, caller, now); r.Ok? ==> Inv(r.value)
  {
    var r := DeleteLeave(l, id, caller, now);
    if r.Ok? {
      var l' := r.value;
      assert forall i | 0 <= i < |l.days| :: RowInv(l, l.days[i]);
      DeletedRowsFit(l.days, id, caller.id, now);
      forall other | other in l'.leaves && l'.leaves[other].deletedAt.None?
        ensures Summary(l', other)
      {
        DeleteKeepsSummary(l, l', id, caller.id, now, other);
      }
    }
  }
}
