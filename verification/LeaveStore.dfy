/** The leave service over row objects: its loops add, rewrite, revive and soft-delete day rows in
    place. A refused flush is rolled back, so its verdict is taken before the rows are touched. */
module LeaveStore {
  import opened Prelude
  import opened Leave

  class DayRow {
    const leave: LeaveId
    const user: UserId
    var entry: Entry
    var slot: Slot
    var deletedAt: Option<Time>
    var deletedBy: Option<UserId>

    function Value(): Day
      reads this
    {
      Day(leave, user, entry, slot, deletedAt, deletedBy)
    }

    constructor (leave: LeaveId, user: UserId, e: Entry)
      ensures Value() == NewDay(leave, user, e)
    {
      this.leave, this.user, entry, slot := leave, user, e, BuildSlot(e);
      deletedAt, deletedBy := None, None;
    }
  }

  class LeaveRow {
    const id: LeaveId
    var value: LeaveLog

    constructor (id: LeaveId, value: LeaveLog)
      ensures this.id == id && this.value == value
    {
      this.id, this.value := id, value;
    }
  }

  class LeaveLogService {
    var leaves: map<LeaveId, LeaveRow>
    var days: seq<DayRow>

    ghost predicate Valid()
      reads this, leaves.Values
    {
      && (forall id | id in leaves :: leaves[id].id == id)
      && (forall i, j | 0 <= i < j < |days| :: days[i] != days[j])
    }

    function Leaves(): map<LeaveId, LeaveLog>
      reads this, leaves.Values
    {
      map id | id in leaves :: leaves[id].value
    }

    function Days(): seq<Day>
      reads this, days
    {
      seq(|days|, i requires 0 <= i < |days| reads this, days => days[i].Value())
    }

    function Value(): Ledger
      reads this, leaves.Values, days
    {
      Ledger(Leaves(), Days())
    }

    // ----- create -----

    method AddDay(id: LeaveId, user: UserId, e: Entry)
      requires Valid()
      modifies this`days
      ensures Valid() && leaves == old(leaves) && old(days) <= days
      ensures Days() == old(Days()) + [NewDay(id, user, e)]
    {
      var row := new DayRow(id, user, e);
      days := days + [row];
    }

    /** The loop that adds one day row a requested day. */
    method AddDays(id: LeaveId, user: UserId, es: seq<Entry>)
      requires Valid()
      modifies this`days
      ensures Valid() && leaves == old(leaves)
      ensures Days() == old(Days()) + NewDays(id, user, es)
    {
      ghost var before := Days();
      for k := 0 to |es|
        invariant Valid() && leaves == old(leaves)
        invariant Days() == before + NewDays(id, user, es[..k])
      {
        AddDay(id, user, es[k]);
        assert NewDays(id, user, es[..k + 1]) == NewDays(id, user, es[..k]) + [NewDay(id, user, es[k])];
      }
      assert es[..|es|] == es;
    }

    method AddLeave(id: LeaveId, value: LeaveLog)
      requires Valid() && id !in leaves
      modifies this`leaves
      ensures Valid() && Leaves() == old(Leaves())[id := value]
    {
      var row := new LeaveRow(id, value);
      leaves := leaves[id := row];
    }

    /** The loop that looks up each requested day among the active rows. */
    method SomeDayOverlaps(user: UserId, es: seq<Entry>, excluded: Option<LeaveId>) returns (found: bool)
      ensures found <==> exists e :: e in es && HasOverlappingLeave(Days(), user, e, excluded)
    {
      for k := 0 to |es|
        invariant forall j | 0 <= j < k :: !HasOverlappingLeave(Days(), user, es[j], excluded)
      {
        if HasOverlappingLeave(Days(), user, es[k], excluded) {
          return true;
        }
      }
      return false;
    }

    /** The guards of `create_leave_log`, in its order. */
    method CheckCreate(caller: Caller, es: seq<Entry>, now: Time) returns (refusal: Option<Error>)
      ensures refusal == RefuseCreate(Value(), caller, es, now)
    {
      if caller.org.None? {
        return Some(MustBelongToOrganization);
      }
      if es == [] {
        return Some(EmptySchedule);
      }
      if PeriodStart(FirstDay(es)) <= now {
        return Some(LeavePeriodAlreadyStarted);
      }
      var overlap := SomeDayOverlaps(caller.id, es, None);
      if overlap {
        return Some(OverlappingLeave);
      }
      return None;
    }

    method AddLeaveAndDays(id: LeaveId, leave: LeaveLog, es: seq<Entry>)
      requires Valid() && id !in leaves
      modifies this`leaves, this`days
      ensures Valid()
      ensures Leaves() == old(Leaves())[id := leave] && Days() == old(Days()) + NewDays(id, leave.user, es)
    {
      AddLeave(id, leave);
      AddDays(id, leave.user, es);
    }

    method CreateLeaveLog(id: LeaveId, caller: Caller, es: seq<Entry>, leaveType: LeaveType, reason: Option<string>,
                          now: Time) returns (refusal: Option<Error>)
      requires Valid() && id !in leaves
      modifies this`leaves, this`days
      ensures Valid()
      ensures match Create(old(Value()), id, caller, es, leaveType, reason, now)
              case Ok(l) => refusal == None && Value() == l
              case Err(e) => refusal == Some(e) && Value() == old(Value())
    {
      refusal := CheckCreate(caller, es, now);
      if refusal.Some? {
        return;
      }
      var accepted := FlushAccepts(Days() + NewDays(id, caller.id, es));
      if !accepted {
        return Some(OverlappingLeave);
      }
      var total := CalculateTotalDays(es);
      var leave := LeaveLog(caller.org.value, caller.id, FirstDay(es).date, LastDate(es), total, leaveType, reason,
                            None, None);
      AddLeaveAndDays(id, leave, es);
    }

    // ----- update -----

    /** One turn of the merge loop. */
    method MergeDay(n: nat, id: LeaveId, user: UserId, e: Entry)
      requires Valid() && n <= |days|
      modifies this`days, days
      ensures Valid() && leaves == old(leaves) && old(days) <= days
      ensures forall i | |old(days)| <= i < |days| :: fresh(days[i])
      ensures Days() == MergeOne(old(Days()), n, id, user, e)
    {
      var existing := FindRow(Days(), n, id, e.date);
      if existing.None? {
        var row := new DayRow(id, user, e);
        days := days + [row];
      } else {
        var row := days[existing.value];
        row.entry := e;
        row.slot := BuildSlot(e);
        row.deletedAt := None;
        row.deletedBy := None;
      }
    }

    method MergeDays(id: LeaveId, user: UserId, es: seq<Entry>)
      requires Valid()
      modifies this`days, days
      ensures Valid() && leaves == old(leaves) && old(days) <= days
      ensures forall i | |old(days)| <= i < |days| :: fresh(days[i])
      ensures Days() == Merge(old(Days()), |old(days)|, id, user, es)
    {
      var n := |days|;
      ghost var stored := Days();
      for k := 0 to |es|
        invariant Valid() && leaves == old(leaves) && old(days) <= days
        invariant forall i | |old(days)| <= i < |days| :: fresh(days[i])
        invariant Days() == Merge(stored, n, id, user, es[..k])
      {
        MergeDay(n, id, user, es[k]);
        assert es[..k + 1][..k] == es[..k];
      }
      assert es[..|es|] == es;
    }

    /** The rows `list_active_by_leave_log` selects, by position. */
    function ActiveRows(n: nat, id: LeaveId): (rows: seq<nat>)
      requires n <= |days|
      reads this, days
      ensures forall i :: i in rows <==> 0 <= i < n && days[i].leave == id && days[i].deletedAt.None?
      ensures forall a, b | 0 <= a < b < |rows| :: rows[a] != rows[b]
    {
      if n == 0 then []
      else ActiveRows(n - 1, id) + if days[n - 1].leave == id && days[n - 1].deletedAt.None? then [n - 1] else []
    }

    /** Soft-deletes those of the given rows whose date is not requested. */
    method DropRows(rows: seq<nat>, es: seq<Entry>, actor: UserId, now: Time)
      requires Valid() && forall i | i in rows :: i < |days|
      modifies days
      ensures Valid() && leaves == old(leaves) && days == old(days)
      ensures forall i | 0 <= i < |days| :: days[i].Value() ==
                if i in rows && !Requested(es, old(days[i].entry.date))
                then old(days[i].Value()).(deletedAt := Some(now), deletedBy := Some(actor)) else old(days[i].Value())
    {
      for k := 0 to |rows|
        invariant forall i | 0 <= i < |days| :: days[i].Value() ==
                    if i in rows[..k] && !Requested(es, old(days[i].entry.date))
                    then old(days[i].Value()).(deletedAt := Some(now), deletedBy := Some(actor))
                    else old(days[i].Value())
      {
        assert rows[k] in rows;
        var row := days[rows[k]];
        assert rows[..k + 1] == rows[..k] + [rows[k]];
        if !Requested(es, row.entry.date) {
          row.deletedAt := Some(now);
          row.deletedBy := Some(actor);
        }
      }
      assert rows[..|rows|] == rows;
    }

    /** The whole schedule update: merge the payload, then drop what it no longer names. */
    method Reschedule(id: LeaveId, user: UserId, es: seq<Entry>, actor: UserId, now: Time)
      requires Valid()
      modifies this`days, days
      ensures Valid() && leaves == old(leaves)
      ensures Days() == Rescheduled(old(Days()), id, user, es, actor, now)
    {
      ghost var stored := Days();
      var existing := ActiveRows(|days|, id);
      MergeDays(id, user, es);
      ghost var merged := Days();
      DropRows(existing, es, actor, now);
      assert Days() == DropUnrequested(merged, stored, id, es, actor, now);
    }

    method WriteLeave(id: LeaveId, value: LeaveLog)
      requires Valid() && id in leaves
      modifies leaves[id]
      ensures Valid() && Leaves() == old(Leaves())[id := value]
    {
      leaves[id].value := value;
      assert forall other | other in leaves && other != id :: leaves[other].id != leaves[id].id;
    }

    /** The writes of an update that nothing refuses. */
    method ApplyUpdate(id: LeaveId, u: Update, caller: Caller, now: Time)
      requires Valid() && id in leaves && (u.days.Some? ==> u.days.value != [])
      modifies leaves.Values, this`days, days
      ensures Valid() && Value() == Updated(old(Value()), id, u, caller, now)
    {
      var leave := leaves[id].value;
      RescheduleIfAsked(id, leave.user, u, caller.id, now);
      leave := ParentAfter(leave, u);
      WriteLeave(id, leave);
    }

    method RescheduleIfAsked(id: LeaveId, user: UserId, u: Update, actor: UserId, now: Time)
      requires Valid()
      modifies this`days, days
      ensures Valid() && leaves == old(leaves)
      ensures Days() == if u.days.None? then old(Days())
                        else Rescheduled(old(Days()), id, user, u.days.value, actor, now)
    {
      if u.days.Some? {
        Reschedule(id, user, u.days.value, actor, now);
      }
    }

    /** The guards of `update_leave_log`, in its order. */
    method CheckUpdate(id: LeaveId, u: Update, caller: Caller, now: Time) returns (refusal: Option<Error>)
      ensures refusal == RefuseUpdate(Value(), id, u, caller, now)
    {
      var active := ActiveEntries(Days(), id);
      if id !in leaves || leaves[id].value.deletedAt.Some? || active == [] {
        return Some(LeaveLogNotFound);
      }
      var leave := leaves[id].value;
      var privileged := caller.role == Admin || caller.role == Manager;
      if !privileged && (caller.id != leave.user || PeriodStart(FirstDay(active)) <= now) {
        return Some(MutationForbidden);
      }
      if u.days.Some? {
        var es := u.days.value;
        if es == [] {
          return Some(EmptySchedule);
        }
        if !privileged && PeriodStart(FirstDay(es)) <= now {
          return Some(LeavePeriodAlreadyStarted);
        }
        var overlap := SomeDayOverlaps(leave.user, es, Some(id));
        if overlap {
          return Some(OverlappingLeave);
        }
      }
      return None;
    }

    method UpdateLeaveLog(id: LeaveId, u: Update, caller: Caller, now: Time) returns (refusal: Option<Error>)
      requires Valid()
      modifies leaves.Values, this`days, days
      ensures Valid()
      ensures match UpdateLeave(old(Value()), id, u, caller, now)
              case Ok(l) => refusal == None && Value() == l
              case Err(e) => refusal == Some(e) && Value() == old(Value())
    {
      refusal := CheckUpdate(id, u, caller, now);
      if refusal.Some? {
        return;
      }
      var accepted := FlushAccepts(Updated(Value(), id, u, caller, now).days);
      if !accepted {
        return Some(OverlappingLeave);
      }
      ApplyUpdate(id, u, caller, now);
    }

    // ----- delete -----

    method DeleteLeaveLog(id: LeaveId, caller: Caller, now: Time) returns (refusal: Option<Error>)
      requires Valid()
      modifies leaves.Values, days
      ensures Valid()
      ensures match DeleteLeave(old(Value()), id, caller, now)
              case Ok(l) => refusal == None && Value() == l
              case Err(e) => refusal == Some(e) && Value() == old(Value())
    {
      var active := ActiveEntries(Days(), id);
      if id !in leaves || leaves[id].value.deletedAt.Some? || active == [] {
        return Some(LeaveLogNotFound);
      }
      if !CanDelete(caller, leaves[id].value, PeriodStart(FirstDay(active)), now) {
        return Some(MutationForbidden);
      }
      WriteLeave(id, leaves[id].value.(deletedAt := Some(now), deletedBy := Some(caller.id)));
      DropRows(ActiveRows(|days|, id), [], caller.id, now);
      return None;
    }
  }

  /** The parent's columns after an update. */
  method ParentAfter(before: LeaveLog, u: Update) returns (leave: LeaveLog)
    requires u.days.Some? ==> u.days.value != []
    ensures leave == UpdatedLeave(before, u)
  {
    leave := before;
    if u.days.Some? {
      var total := CalculateTotalDays(u.days.value);
      leave := leave.(startDate := FirstDay(u.days.value).date, endDate := LastDate(u.days.value), total := total);
    }
    if u.leaveType.Some? {
      leave := leave.(leaveType := u.leaveType.value);
    }
    if u.reason.Some? {
      leave := leave.(reason := u.reason.value);
    }
  }

  /** The database's verdict on the table constraints. */
  method FlushAccepts(days: seq<Day>) returns (accepted: bool)
    ensures accepted <==> ConstraintsHold(days)
  {
    for j := 0 to |days|
      invariant ConstraintsHold(days[..j])
    {
      var fits := WellFormed(days[j].entry);
      for i := 0 to j
        invariant fits <==> WellFormed(days[j].entry) && forall k | 0 <= k < i ::
                    Compatible(days[k], days[j])
                    && (days[k].leave != days[j].leave || days[k].entry.date != days[j].entry.date)
      {
        fits := fits && Compatible(days[i], days[j])
                && (days[i].leave != days[j].leave || days[i].entry.date != days[j].entry.date);
      }
      if !fits {
        return false;
      }
    }
    assert days[..|days|] == days;
    return true;
  }
}
