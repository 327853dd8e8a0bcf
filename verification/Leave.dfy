/** The leave ledger as values: leaves, their day rows, and what create, update and delete make of
    them. Dates are day numbers, times are local wall-clock microseconds, totals are half-days. */
module Leave {
  import opened Prelude

  type LeaveId = nat
  type UserId = nat
  type OrgId = nat
  type LeaveType = nat
  type Date = int
  type Time = int

  const DAY: int := 86_400_000_000
  const NOON: int := 43_200_000_000

  datatype Portion = Full | Half
  datatype HalfSlot = First | Second

  /** One requested day, and the columns a day row takes from it. */
  datatype Entry = Entry(date: Date, portion: Portion, half: Option<HalfSlot>)

  /** The half-open range [lo, hi) of a day's two halves. */
  datatype Slot = Slot(lo: nat, hi: nat)

  datatype Day = Day(leave: LeaveId, user: UserId, entry: Entry, slot: Slot,
                     deletedAt: Option<Time>, deletedBy: Option<UserId>)

  datatype LeaveLog = LeaveLog(org: OrgId, user: UserId, startDate: Date, endDate: Date, total: nat,
                               leaveType: LeaveType, reason: Option<string>,
                               deletedAt: Option<Time>, deletedBy: Option<UserId>)

  /** The two tables; a day row is known by its position. */
  datatype Ledger = Ledger(leaves: map<LeaveId, LeaveLog>, days: seq<Day>)

  datatype Role = SuperAdmin | Admin | Manager | Employee
  datatype Caller = Caller(id: UserId, org: Option<OrgId>, role: Role)

  datatype Error =
    | MustBelongToOrganization | EmptySchedule | LeavePeriodAlreadyStarted | OverlappingLeave
    | LeaveLogNotFound | MutationForbidden

  // ----- helpers -----

  function BuildSlot(e: Entry): Slot {
    if e.portion == Full then Slot(0, 2)
    else if e.half == Some(First) then Slot(0, 1)
    else Slot(1, 2)
  }

  predicate Overlap(a: Slot, b: Slot) {
    a.lo < b.hi && b.lo < a.hi
  }

  function PeriodStart(e: Entry): Time {
    e.date * DAY + if e.portion == Full || e.half == Some(First) then 0 else NOON
  }

  /** `min(days, key=leave_date)`: the first of the entries with the earliest date. */
  function FirstDay(es: seq<Entry>): (first: Entry)
    requires es != []
    ensures first in es && forall e | e in es :: first.date <= e.date
  {
    if |es| == 1 then es[0]
    else
      var later := FirstDay(es[1..]);
      if es[0].date <= later.date then es[0] else later
  }

  function LastDate(es: seq<Entry>): (last: Date)
    requires es != []
    ensures (exists e :: e in es && e.date == last) && forall e | e in es :: e.date <= last
  {
    if |es| == 1 then
      assert es[0] in es;
      es[0].date
    else
      var later := LastDate(es[1..]);
      assert es[0] in es;
      if es[0].date >= later then es[0].date else later
  }

  function HalfDays(e: Entry): nat {
    if e.portion == Full then 2 else 1
  }

  function TotalHalfDays(es: seq<Entry>): nat {
    if es == [] then 0 else TotalHalfDays(es[..|es| - 1]) + HalfDays(es[|es| - 1])
  }

  /** `_calculate_total_days`, in half-days. */
  method CalculateTotalDays(es: seq<Entry>) returns (total: nat)
    ensures total == TotalHalfDays(es)
  {
    total := 0;
    for i := 0 to |es|
      invariant total == TotalHalfDays(es[..i])
    {
      assert es[..i + 1][..i] == es[..i];
      if es[i].portion == Full {
        total := total + 2;
      } else {
        total := total + 1;
      }
    }
    assert es[..|es|] == es;
  }

  // ----- queries over the day rows -----

  /** The entries of the rows that `keep` selects, in row order. */
  function Entries(days: seq<Day>, keep: Day -> bool): seq<Entry> {
    if days == [] then []
    else Entries(days[..|days| - 1], keep) + if keep(days[|days| - 1]) then [days[|days| - 1].entry] else []
  }

  function ActiveOf(leave: LeaveId): Day -> bool {
    (d: Day) => d.leave == leave && d.deletedAt.None?
  }

  /** `list_active_by_leave_log`, as entries. */
  function ActiveEntries(days: seq<Day>, leave: LeaveId): seq<Entry> {
    Entries(days, ActiveOf(leave))
  }

  /** `has_overlapping_leave`. */
  predicate HasOverlappingLeave(days: seq<Day>, user: UserId, e: Entry, excluded: Option<LeaveId>) {
    exists i :: 0 <= i < |days| && days[i].user == user && days[i].entry.date == e.date && days[i].deletedAt.None?
                && Overlap(days[i].slot, BuildSlot(e)) && Some(days[i].leave) != excluded
  }

  /** The row that holds `date` for `leave`, soft-deleted or not, among the first `n`. */
  function FindRow(days: seq<Day>, n: nat, leave: LeaveId, date: Date): (row: Option<nat>)
    requires n <= |days|
    ensures row.Some? ==> row.value < n && days[row.value].leave == leave && days[row.value].entry.date == date
    ensures row.None? ==> forall i | 0 <= i < n :: days[i].leave != leave || days[i].entry.date != date
  {
    if n == 0 then None
    else
      var earlier := FindRow(days, n - 1, leave, date);
      if earlier.Some? then earlier
      else if days[n - 1].leave == leave && days[n - 1].entry.date == date then Some(n - 1)
      else None
  }

  // ----- table constraints -----

  ghost predicate Unique(days: seq<Day>) {
    forall i, j | 0 <= i < j < |days| :: days[i].leave != days[j].leave || days[i].entry.date != days[j].entry.date
  }

  /** No two active rows of a user share part of a day. */
  ghost predicate Exclusive(days: seq<Day>) {
    forall i, j | 0 <= i < j < |days| :: Compatible(days[i], days[j])
  }

  predicate Compatible(a: Day, b: Day) {
    a.deletedAt.Some? || b.deletedAt.Some? || a.user != b.user || a.entry.date != b.entry.date
    || !Overlap(a.slot, b.slot)
  }

  /** The check constraint on portion and half_slot. */
  predicate WellFormed(e: Entry) {
    e.portion == Full <==> e.half == None
  }

  /** What the flush accepts. */
  ghost predicate ConstraintsHold(days: seq<Day>) {
    Unique(days) && Exclusive(days) && forall i | 0 <= i < |days| :: WellFormed(days[i].entry)
  }

  // ----- create -----

  function NewDay(leave: LeaveId, user: UserId, e: Entry): Day {
    Day(leave, user, e, BuildSlot(e), None, None)
  }

  function NewDays(leave: LeaveId, user: UserId, es: seq<Entry>): seq<Day> {
    seq(|es|, i requires 0 <= i < |es| => NewDay(leave, user, es[i]))
  }

  function Created(l: Ledger, id: LeaveId, user: UserId, org: OrgId, es: seq<Entry>, leaveType: LeaveType,
                   reason: Option<string>): Ledger
    requires es != []
  {
    Ledger(l.leaves[id := LeaveLog(org, user, FirstDay(es).date, LastDate(es), TotalHalfDays(es), leaveType, reason,
                                   None, None)],
           l.days + NewDays(id, user, es))
  }

  function RefuseCreate(l: Ledger, caller: Caller, es: seq<Entry>, now: Time): Option<Error> {
    if caller.org.None? then Some(MustBelongToOrganization)
    else if es == [] then Some(EmptySchedule)
    else if PeriodStart(FirstDay(es)) <= now then Some(LeavePeriodAlreadyStarted)
    else if exists e :: e in es && HasOverlappingLeave(l.days, caller.id, e, None) then Some(OverlappingLeave)
    else None
  }

  ghost function Create(l: Ledger, id: LeaveId, caller: Caller, es: seq<Entry>, leaveType: LeaveType,
                        reason: Option<string>, now: Time): Result<Ledger, Error>
  {
    var refused := RefuseCreate(l, caller, es, now);
    if refused.Some? then Err(refused.value)
    else
      var after := Created(l, id, caller.id, caller.org.value, es, leaveType, reason);
      if ConstraintsHold(after.days) then Ok(after) else Err(OverlappingLeave)
  }

  // ----- update -----

  /** The fields a request sets; the outer option of `reason` says whether it is set at all. */
  datatype Update = Update(days: Option<seq<Entry>>, leaveType: Option<LeaveType>, reason: Option<Option<string>>)

  /** One payload day: an existing row of that date is rewritten and revived, else a row is added.
      Pending rows are not seen by the lookup, which reads only the `n` rows that were stored. */
  function MergeOne(days: seq<Day>, n: nat, leave: LeaveId, user: UserId, e: Entry): seq<Day>
    requires n <= |days|
  {
    var row := FindRow(days, n, leave, e.date);
    if row.None? then days + [NewDay(leave, user, e)]
    else days[row.value := days[row.value].(entry := e, slot := BuildSlot(e), deletedAt := None, deletedBy := None)]
  }

  /** The whole payload: stored rows keep their places, their leave and their date. */
  function Merge(days: seq<Day>, n: nat, leave: LeaveId, user: UserId, es: seq<Entry>): (merged: seq<Day>)
    requires n <= |days|
    ensures |days| <= |merged|
    ensures forall i | 0 <= i < |days| :: merged[i].leave == days[i].leave && merged[i].entry.date == days[i].entry.date
  {
    if es == [] then days
    else MergeOne(Merge(days, n, leave, user, es[..|es| - 1]), n, leave, user, es[|es| - 1])
  }

  predicate Requested(es: seq<Entry>, date: Date) {
    exists e :: e in es && e.date == date
  }

  /** The rows that were active before and whose date is no longer requested are soft-deleted. */
  function DropUnrequested(merged: seq<Day>, stored: seq<Day>, leave: LeaveId, es: seq<Entry>, actor: UserId, now: Time)
    : seq<Day>
    requires |stored| <= |merged|
  {
    seq(|merged|, i requires 0 <= i < |merged| =>
      if i < |stored| && stored[i].leave == leave && stored[i].deletedAt.None? && !Requested(es, stored[i].entry.date)
      then merged[i].(deletedAt := Some(now), deletedBy := Some(actor))
      else merged[i])
  }

  function Rescheduled(stored: seq<Day>, leave: LeaveId, user: UserId, es: seq<Entry>, actor: UserId, now: Time)
    : seq<Day>
  {
    DropUnrequested(Merge(stored, |stored|, leave, user, es), stored, leave, es, actor, now)
  }

  predicate Privileged(caller: Caller) {
    caller.role == Admin || caller.role == Manager
  }

  predicate CanUpdate(caller: Caller, leave: LeaveLog, start: Time, now: Time) {
    Privileged(caller) || (caller.id == leave.user && start > now)
  }

  predicate CanDelete(caller: Caller, leave: LeaveLog, start: Time, now: Time) {
    caller.id == leave.user && start > now
  }

  function RefuseUpdate(l: Ledger, id: LeaveId, u: Update, caller: Caller, now: Time): Option<Error> {
    if id !in l.leaves || l.leaves[id].deletedAt.Some? || ActiveEntries(l.days, id) == [] then Some(LeaveLogNotFound)
    else if !CanUpdate(caller, l.leaves[id], PeriodStart(FirstDay(ActiveEntries(l.days, id))), now)
    then Some(MutationForbidden)
    else if u.days.None? then None
    else
      var es := u.days.value;
      if es == [] then Some(EmptySchedule)
      else if !Privileged(caller) && PeriodStart(FirstDay(es)) <= now then Some(LeavePeriodAlreadyStarted)
      else if exists e :: e in es && HasOverlappingLeave(l.days, l.leaves[id].user, e, Some(id))
      then Some(OverlappingLeave)
      else None
  }

  /** The parent row: derived columns from the payload's days, then the plain fields. */
  function UpdatedLeave(leave: LeaveLog, u: Update): LeaveLog
    requires u.days.Some? ==> u.days.value != []
  {
    var scheduled :=
      if u.days.None? then leave
      else leave.(startDate := FirstDay(u.days.value).date, endDate := LastDate(u.days.value),
                  total := TotalHalfDays(u.days.value));
    scheduled.(leaveType := if u.leaveType.Some? then u.leaveType.value else leave.leaveType,
               reason := if u.reason.Some? then u.reason.value else leave.reason)
  }

  function Updated(l: Ledger, id: LeaveId, u: Update, caller: Caller, now: Time): Ledger
    requires id in l.leaves && (u.days.Some? ==> u.days.value != [])
  {
    Ledger(l.leaves[id := UpdatedLeave(l.leaves[id], u)],
           if u.days.None? then l.days
           else Rescheduled(l.days, id, l.leaves[id].user, u.days.value, caller.id, now))
  }

  ghost function UpdateLeave(l: Ledger, id: LeaveId, u: Update, caller: Caller, now: Time): Result<Ledger, Error> {
    var refused := RefuseUpdate(l, id, u, caller, now);
    if refused.Some? then Err(refused.value)
    else
      var after := Updated(l, id, u, caller, now);
      if ConstraintsHold(after.days) then Ok(after) else Err(OverlappingLeave)
  }

  // ----- delete -----

  function DropAll(days: seq<Day>, leave: LeaveId, actor: UserId, now: Time): seq<Day> {
    seq(|days|, i requires 0 <= i < |days| =>
      if days[i].leave == leave && days[i].deletedAt.None?
      then days[i].(deletedAt := Some(now), deletedBy := Some(actor)) else days[i])
  }

  function DeleteLeave(l: Ledger, id: LeaveId, caller: Caller, now: Time): Result<Ledger, Error> {
    if id !in l.leaves || l.leaves[id].deletedAt.Some? || ActiveEntries(l.days, id) == [] then Err(LeaveLogNotFound)
    else if !CanDelete(caller, l.leaves[id], PeriodStart(FirstDay(ActiveEntries(l.days, id))), now)
    then Err(MutationForbidden)
    else Ok(Ledger(l.leaves[id := l.leaves[id].(deletedAt := Some(now), deletedBy := Some(caller.id))],
                   DropAll(l.days, id, caller.id, now)))
  }
}
