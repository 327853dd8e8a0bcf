/** The leave ledger as a calendar: for each user the half-days that are taken. Every create, update
    and delete is refused for exactly the reasons below, and otherwise changes the calendar by exactly
    the half-days requested. */
module LeaveCalendar {
  import opened Prelude
  import opened Leave
  import opened LeaveMerge
  import opened LeaveLedger
  import opened LeaveRuns

  ghost predicate Takes(l: Ledger, i: int, x: int) {
    0 <= i < |l.days| && l.days[i].deletedAt.None? && x in Units(l.days[i].entry)
  }

  /** Half-day x is taken by the leave. */
  ghost predicate TakenBy(l: Ledger, id: LeaveId, x: int) {
    exists i :: Takes(l, i, x) && l.days[i].leave == id
  }

  /** Half-day x is taken by one of the user's leaves other than `excluded`. */
  ghost predicate TakenExcept(l: Ledger, user: UserId, excluded: Option<LeaveId>, x: int) {
    exists i :: Takes(l, i, x) && l.days[i].user == user && Some(l.days[i].leave) != excluded
  }

  /** Some requested half-day has begun. */
  ghost predicate SomeBegun(es: seq<Entry>, now: Time) {
    exists x :: x in AllUnits(es) && x * HALF_DAY <= now
  }

  ghost predicate LeaveBegun(l: Ledger, id: LeaveId, now: Time) {
    exists x :: TakenBy(l, id, x) && x * HALF_DAY <= now
  }

  // ----- the service's checks, in half-days -----

  lemma FirstPeriodIsBegun(es: seq<Entry>, now: Time)
    requires es != [] && DistinctDates(es)
    ensures PeriodStart(FirstDay(es)) <= now <==> SomeBegun(es, now)
  {
    var first := FirstDay(es);
    PeriodStartsWithItsFirstHalf(first);
    var f :| f in Units(first) && PeriodStart(first) == f * HALF_DAY;
    UnitOfSome(es, f);
    if SomeBegun(es, now) {
      var x :| x in AllUnits(es) && x * HALF_DAY <= now;
      UnitOfSome(es, x);
      var e :| e in es && x in Units(e);
      EarliestDayStartsFirst(es, e);
      PeriodStartsWithItsFirstHalf(e);
    }
  }

  lemma LeaveUnits(l: Ledger, id: LeaveId, x: int)
    ensures x in AllUnits(ActiveEntries(l.days, id)) <==> TakenBy(l, id, x)
  {
    var es := ActiveEntries(l.days, id);
    UnitOfSome(es, x);
    if x in AllUnits(es) {
      var e :| e in es && x in Units(e);
      EntriesMember(l.days, ActiveOf(id), e);
      var i: nat :| Selects(l.days, ActiveOf(id), e, i);
      assert Takes(l, i, x);
    }
    if TakenBy(l, id, x) {
      var i :| Takes(l, i, x) && l.days[i].leave == id;
      EntriesMember(l.days, ActiveOf(id), l.days[i].entry);
      assert Selects(l.days, ActiveOf(id), l.days[i].entry, i);
    }
  }

  lemma LeaveBegunIsItsFirstPeriod(l: Ledger, id: LeaveId, now: Time)
    requires Unique(l.days) && ActiveEntries(l.days, id) != []
    ensures PeriodStart(FirstDay(ActiveEntries(l.days, id))) <= now <==> LeaveBegun(l, id, now)
  {
    LeaveDatesAreDistinct(l.days, id);
    FirstPeriodIsBegun(ActiveEntries(l.days, id), now);
    forall x
      ensures x in AllUnits(ActiveEntries(l.days, id)) <==> TakenBy(l, id, x)
    {
      LeaveUnits(l, id, x);
    }
  }

  lemma OverlapIsACommonHalf(l: Ledger, user: UserId, e: Entry, excluded: Option<LeaveId>)
    requires forall i | 0 <= i < |l.days| :: RowInv(l, l.days[i])
    ensures HasOverlappingLeave(l.days, user, e, excluded) <==>
            exists x :: x in Units(e) && TakenExcept(l, user, excluded, x)
  {
    if HasOverlappingLeave(l.days, user, e, excluded) {
      var i :| 0 <= i < |l.days| && l.days[i].user == user && l.days[i].entry.date == e.date
               && l.days[i].deletedAt.None? && Overlap(l.days[i].slot, BuildSlot(e))
               && Some(l.days[i].leave) != excluded;
      assert RowInv(l, l.days[i]);
      ApartIsNoCommonHalf(l.days[i].entry, e);
      var x :| x in Units(l.days[i].entry) && x in Units(e);
      assert Takes(l, i, x);
    }
    if x :| x in Units(e) && TakenExcept(l, user, excluded, x) {
      var i :| Takes(l, i, x) && l.days[i].user == user && Some(l.days[i].leave) != excluded;
      assert RowInv(l, l.days[i]);
      ApartIsNoCommonHalf(l.days[i].entry, e);
    }
  }

  lemma SomeOverlapIsATakenHalf(l: Ledger, user: UserId, es: seq<Entry>, excluded: Option<LeaveId>)
    requires forall i | 0 <= i < |l.days| :: RowInv(l, l.days[i])
    ensures (exists e :: e in es && HasOverlappingLeave(l.days, user, e, excluded)) <==>
            exists x :: x in AllUnits(es) && TakenExcept(l, user, excluded, x)
  {
    if e :| e in es && HasOverlappingLeave(l.days, user, e, excluded) {
      OverlapIsACommonHalf(l, user, e, excluded);
      var x :| x in Units(e) && TakenExcept(l, user, excluded, x);
      UnitOfSome(es, x);
    }
    if x :| x in AllUnits(es) && TakenExcept(l, user, excluded, x) {
      UnitOfSome(es, x);
      var e :| e in es && x in Units(e);
      OverlapIsACommonHalf(l, user, e, excluded);
    }
  }

  // ----- refusals -----

  /** What stands against a create: no organization, then an empty request, then a requested half-day
      that has begun, then one that the user has taken already. */
  ghost function CreateObjection(l: Ledger, caller: Caller, es: seq<Entry>, now: Time): Option<Error> {
    if caller.org.None? then Some(MustBelongToOrganization)
    else if es == [] then Some(EmptySchedule)
    else if SomeBegun(es, now) then Some(LeavePeriodAlreadyStarted)
    else if exists x :: x in AllUnits(es) && TakenExcept(l, caller.id, None, x) then Some(OverlappingLeave)
    else None
  }

  lemma CreateGuardsAreTheObjection(l: Ledger, caller: Caller, es: seq<Entry>, now: Time)
    requires Inv(l) && ValidPayload(es)
    ensures RefuseCreate(l, caller, es, now) == CreateObjection(l, caller, es, now)
  {
    SomeOverlapIsATakenHalf(l, caller.id, es, None);
    if es != [] {
      FirstPeriodIsBegun(es, now);
    }
  }

  /** A create is refused for the first thing that stands against it, and goes through if nothing does;
      the database never objects. */
  lemma CreateIsExact(tr: seq<Ledger>, steps: seq<Step>, i: nat, step: Step)
    requires IsRun(tr, steps) && i < |tr| && step.CreateStep? && Enabled(tr[i], step)
    ensures match CreateObjection(tr[i], step.caller, step.es, step.now)
            case Some(e) => Attempt(tr[i], step) == Err(e)
            case None => Attempt(tr[i], step).Ok?
  {
    RunKeepsInv(tr, steps, i);
    ConstraintsNeverFire(tr, steps, i, step);
    CreateGuardsAreTheObjection(tr[i], step.caller, step.es, step.now);
  }

  /** Who may change a leave: an admin or a manager always, its user until some half of it has begun. */
  ghost predicate MayUpdate(l: Ledger, id: LeaveId, caller: Caller, now: Time)
    requires id in l.leaves
  {
    caller.role == Admin || caller.role == Manager
    || (caller.id == l.leaves[id].user && !LeaveBegun(l, id, now))
  }

  lemma LiveLeaveHasDays(l: Ledger, id: LeaveId, now: Time)
    requires Inv(l) && id in l.leaves && l.leaves[id].deletedAt.None?
    ensures ActiveEntries(l.days, id) != []
    ensures PeriodStart(FirstDay(ActiveEntries(l.days, id))) <= now <==> LeaveBegun(l, id, now)
  {
    assert Summary(l, id);
    LeaveBegunIsItsFirstPeriod(l, id, now);
  }

  /** What stands against an update: a missing or deleted leave, then a caller who may not change it,
      then an empty schedule, then, unless the caller is privileged, a requested half-day that has begun,
      then one that is taken by another of the user's leaves. */
  ghost function Objection(l: Ledger, id: LeaveId, u: Update, caller: Caller, now: Time): Option<Error> {
    if id !in l.leaves || l.leaves[id].deletedAt.Some? then Some(LeaveLogNotFound)
    else if !MayUpdate(l, id, caller, now) then Some(MutationForbidden)
    else if u.days.None? then None
    else if u.days.value == [] then Some(EmptySchedule)
    else if caller.role != Admin && caller.role != Manager && SomeBegun(u.days.value, now)
    then Some(LeavePeriodAlreadyStarted)
    else if exists x :: x in AllUnits(u.days.value) && TakenExcept(l, l.leaves[id].user, Some(id), x)
    then Some(OverlappingLeave)
    else None
  }

  lemma GuardsAreTheObjection(l: Ledger, id: LeaveId, u: Update, caller: Caller, now: Time)
    requires Inv(l) && (u.days.Some? ==> ValidPayload(u.days.value))
    ensures RefuseUpdate(l, id, u, caller, now) == Objection(l, id, u, caller, now)
  {
    if id in l.leaves && l.leaves[id].deletedAt.None? {
      LiveLeaveHasDays(l, id, now);
      if u.days.Some? && u.days.value != [] {
        SomeOverlapIsATakenHalf(l, l.leaves[id].user, u.days.value, Some(id));
        FirstPeriodIsBegun(u.days.value, now);
      }
    }
  }

  /** An update is refused for the first thing that stands against it, and goes through if nothing does;
      the database never objects. */
  lemma UpdateIsExact(tr: seq<Ledger>, steps: seq<Step>, i: nat, step: Step)
    requires IsRun(tr, steps) && i < |tr| && step.UpdateStep? && Enabled(tr[i], step)
    ensures match Objection(tr[i], step.id, step.u, step.caller, step.now)
            case Some(e) => Attempt(tr[i], step) == Err(e)
            case None => Attempt(tr[i], step).Ok?
  {
    RunKeepsInv(tr, steps, i);
    ConstraintsNeverFire(tr, steps, i, step);
    GuardsAreTheObjection(tr[i], step.id, step.u, step.caller, step.now);
  }

  /** A delete is refused for a missing or deleted leave, and for anyone but its user before any half of
      it has begun; no role helps. */
  lemma DeleteIsExact(tr: seq<Ledger>, steps: seq<Step>, i: nat, step: Step)
    requires IsRun(tr, steps) && i < |tr| && step.DeleteStep?
    ensures var l, id, r := tr[i], step.id, Attempt(tr[i], step);
            if id !in l.leaves || l.leaves[id].deletedAt.Some? then r == Err(LeaveLogNotFound)
            else if step.caller.id != l.leaves[id].user || LeaveBegun(l, id, step.now) then r == Err(MutationForbidden)
            else r.Ok?
  {
    RunKeepsInv(tr, steps, i);
    if step.id in tr[i].leaves && tr[i].leaves[step.id].deletedAt.None? {
      LiveLeaveHasDays(tr[i], step.id, step.now);
    }
  }

  // ----- effects -----

  /** After a create the leave's half-days are those requested, for its user; everything else stands. */
  lemma CreateTakesTheRequest(l: Ledger, step: Step, x: int)
    requires Inv(l) && step.CreateStep? && Enabled(l, step) && Attempt(l, step).Ok?
    ensures var l', c := Attempt(l, step).value, step.caller;
            && TakenBy(l', step.id, x) == (x in AllUnits(step.es))
            && (forall id | id != step.id :: TakenBy(l', id, x) == TakenBy(l, id, x))
    ensures var l', c := Attempt(l, step).value, step.caller;
            && step.id in l'.leaves && l'.leaves == l.leaves[step.id := l'.leaves[step.id]]
            && c.org.Some? && l'.leaves[step.id].org == c.org.value && l'.leaves[step.id].user == c.id
            && l'.leaves[step.id].leaveType == step.leaveType && l'.leaves[step.id].reason == step.reason
            && l'.leaves[step.id].deletedAt.None? && l'.leaves[step.id].deletedBy.None?
            && l.days <= l'.days
  {
    assert Attempt(l, step).value.days == l.days + NewDays(step.id, step.caller.id, step.es);
    NewDaysTakeTheRequest(l, Attempt(l, step).value, step.id, step.caller.id, step.es, x);
  }

  lemma NewDaysTakeTheRequest(l: Ledger, l': Ledger, id: LeaveId, user: UserId, es: seq<Entry>, x: int)
    requires Inv(l) && id !in l.leaves && l'.days == l.days + NewDays(id, user, es)
    ensures TakenBy(l', id, x) == (x in AllUnits(es))
    ensures forall other | other != id :: TakenBy(l', other, x) == TakenBy(l, other, x)
  {
    assert forall i | 0 <= i < |l.days| :: RowInv(l, l.days[i]);
    EntriesOfNewDays(l.days, id, user, es);
    LeaveUnits(l', id, x);
    forall other | other != id
      ensures TakenBy(l', other, x) == TakenBy(l, other, x)
    {
      SameRowsSameHalves(l, l', other, x);
    }
  }

  lemma SameRowsSameHalves(l: Ledger, l': Ledger, id: LeaveId, x: int)
    requires |l.days| <= |l'.days|
    requires forall i | 0 <= i < |l.days| && (l.days[i].leave == id || l'.days[i].leave == id) ::
               l'.days[i] == l.days[i]
    requires forall i | |l.days| <= i < |l'.days| :: l'.days[i].leave != id
    ensures TakenBy(l', id, x) == TakenBy(l, id, x)
  {
    if i :| Takes(l, i, x) && l.days[i].leave == id {
      assert Takes(l', i, x);
    }
    if i :| Takes(l', i, x) && l'.days[i].leave == id {
      assert Takes(l, i, x);
    }
  }

  /** After an update the leave's half-days are those requested, if a schedule was, and as before if
      not; its type and reason are the requested ones where the request sets them; everything else
      stands. */
  lemma UpdateTakesTheRequest(l: Ledger, step: Step, x: int)
    requires Inv(l) && step.UpdateStep? && Enabled(l, step) && Attempt(l, step).Ok?
    ensures var l', id, u := Attempt(l, step).value, step.id, step.u;
            && TakenBy(l', id, x) == (if u.days.Some? then x in AllUnits(u.days.value) else TakenBy(l, id, x))
            && (forall other | other != id :: TakenBy(l', other, x) == TakenBy(l, other, x))
            && id in l.leaves && id in l'.leaves && l'.leaves == l.leaves[id := l'.leaves[id]]
            && l'.leaves[id].org == l.leaves[id].org && l'.leaves[id].user == l.leaves[id].user
            && l'.leaves[id].leaveType == (if u.leaveType.Some? then u.leaveType.value else l.leaves[id].leaveType)
            && l'.leaves[id].reason == (if u.reason.Some? then u.reason.value else l.leaves[id].reason)
            && l'.leaves[id].deletedAt.None? && l'.leaves[id].deletedBy == l.leaves[id].deletedBy
  {
    var l', id := Attempt(l, step).value, step.id;
    if step.u.days.Some? {
      var es, user := step.u.days.value, l.leaves[id].user;
      MergeRowByRow(l.days, id, user, es, step.caller.id, step.now);
      forall other | other != id
        ensures TakenBy(l', other, x) == TakenBy(l, other, x)
      {
        SameRowsSameHalves(l, l', other, x);
      }
      LeaveUnits(l', id, x);
      RequestedUnits(l, id, user, es, step.caller.id, step.now, x);
    } else {
      forall other
        ensures TakenBy(l', other, x) == TakenBy(l, other, x)
      {
        SameRowsSameHalves(l, l', other, x);
      }
    }
  }

  lemma RequestedUnits(l: Ledger, id: LeaveId, user: UserId, es: seq<Entry>, actor: UserId, now: Time, x: int)
    requires Unique(l.days) && DistinctDates(es)
    ensures x in AllUnits(ActiveEntries(Rescheduled(l.days, id, user, es, actor, now), id)) <==> x in AllUnits(es)
  {
    var active := ActiveEntries(Rescheduled(l.days, id, user, es, actor, now), id);
    UnitOfSome(active, x);
    UnitOfSome(es, x);
    forall e
      ensures e in active <==> e in es
    {
      ActiveRowsArePayload(l.days, id, user, es, actor, now, e);
    }
  }

  /** After a delete the leave takes no half-day, and it and its active rows bear the caller's stamp;
      everything else stands. */
  lemma DeleteFreesTheLeave(l: Ledger, step: Step, x: int)
    requires step.DeleteStep? && Attempt(l, step).Ok?
    ensures var l', id := Attempt(l, step).value, step.id;
            && !TakenBy(l', id, x) && (forall other | other != id :: TakenBy(l', other, x) == TakenBy(l, other, x))
            && id in l.leaves && l'.leaves ==
               l.leaves[id := l.leaves[id].(deletedAt := Some(step.now), deletedBy := Some(step.caller.id))]
            && |l'.days| == |l.days|
            && forall i | 0 <= i < |l.days| :: l'.days[i] ==
                 if l.days[i].leave == id && l.days[i].deletedAt.None?
                 then l.days[i].(deletedAt := Some(step.now), deletedBy := Some(step.caller.id)) else l.days[i]
  {
    var l' := Attempt(l, step).value;
    forall other | other != step.id
      ensures TakenBy(l', other, x) == TakenBy(l, other, x)
    {
      SameRowsSameHalves(l, l', other, x);
    }
  }

  /** A user's calendar is what the user's leaves take. */
  lemma CalendarIsTheLeaves(l: Ledger, user: UserId, excluded: Option<LeaveId>, x: int)
    requires Inv(l)
    ensures TakenExcept(l, user, excluded, x) <==>
            exists id :: id in l.leaves && l.leaves[id].user == user && Some(id) != excluded && TakenBy(l, id, x)
  {
    if i :| Takes(l, i, x) && l.days[i].user == user && Some(l.days[i].leave) != excluded {
      assert RowInv(l, l.days[i]) && TakenBy(l, l.days[i].leave, x);
    }
    if id :| id in l.leaves && l.leaves[id].user == user && Some(id) != excluded && TakenBy(l, id, x) {
      var i :| Takes(l, i, x) && l.days[i].leave == id;
      assert RowInv(l, l.days[i]);
    }
  }
}
