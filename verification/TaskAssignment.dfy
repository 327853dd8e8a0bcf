/** Task assignment looks only at the summary columns of a user's leaves. Because those agree with
    the day rows in every reachable ledger, that is enough, and it is exactly this strict. */
module TaskAssignment {
  import opened Prelude
  import opened Leave
  import opened LeaveMerge
  import opened LeaveLedger
  import opened LeaveRuns

  type TaskId = nat

  datatype Task = Task(id: TaskId, startDate: Option<Date>, dueDate: Option<Date>)

  /** A candidate as the user table has it. */
  datatype Candidate = Candidate(id: UserId, org: Option<OrgId>, active: bool)

  datatype Assignee = Assignee(task: TaskId, user: UserId, assignedBy: UserId,
                               removedAt: Option<Time>, removedBy: Option<UserId>)

  datatype Refusal =
    | NoOrganization | TaskNotFound | InsufficientPermission | UserNotFound | CrossOrganization
    | ProjectMembershipRequired | AlreadyAssigned | EmployeeOnLeave | AssignmentNotFound

  /** The inclusive window: one known bound collapses it to a day, none leaves nothing to check. */
  function Window(start: Option<Date>, end: Option<Date>): Option<(Date, Date)> {
    var first := if start.Some? then start else end;
    var last := if end.Some? then end else first;
    if first.None? || last.None? then None else Some((first.value, last.value))
  }

  /** `get_conflicting_leave` finds a row. */
  predicate HasConflictingLeave(l: Ledger, user: UserId, start: Option<Date>, end: Option<Date>) {
    var window := Window(start, end);
    window.Some? && exists id :: id in l.leaves && l.leaves[id].user == user && l.leaves[id].deletedAt.None?
                                 && l.leaves[id].startDate <= window.value.1 && l.leaves[id].endDate >= window.value.0
  }

  predicate ActivelyAssigned(rows: seq<Assignee>, task: TaskId, user: UserId) {
    exists i :: 0 <= i < |rows| && rows[i].task == task && rows[i].user == user && rows[i].removedAt.None?
  }

  /** What stands between a request and an assignment, in the service's order. The permission and
      membership lookups are arguments. */
  function Refuse(rows: seq<Assignee>, l: Ledger, caller: Caller, task: Option<Task>, canManage: bool,
                  candidate: Option<Candidate>, memberOrStandalone: bool): Option<Refusal>
  {
    if caller.org.None? then Some(NoOrganization)
    else if task.None? then Some(TaskNotFound)
    else if !canManage then Some(InsufficientPermission)
    else if candidate.None? || !candidate.value.active then Some(UserNotFound)
    else if candidate.value.org != caller.org then Some(CrossOrganization)
    else if !memberOrStandalone then Some(ProjectMembershipRequired)
    else if ActivelyAssigned(rows, task.value.id, candidate.value.id) then Some(AlreadyAssigned)
    else if HasConflictingLeave(l, candidate.value.id, task.value.startDate, task.value.dueDate)
    then Some(EmployeeOnLeave)
    else None
  }

  class AssigneeRow {
    const task: TaskId
    const user: UserId
    const assignedBy: UserId
    var removedAt: Option<Time>
    var removedBy: Option<UserId>

    function Value(): Assignee
      reads this
    {
      Assignee(task, user, assignedBy, removedAt, removedBy)
    }

    constructor (task: TaskId, user: UserId, assignedBy: UserId)
      ensures Value() == Assignee(task, user, assignedBy, None, None)
    {
      this.task, this.user, this.assignedBy, removedAt, removedBy := task, user, assignedBy, None, None;
    }
  }

  class TaskAssigneeService {
    var assignees: seq<AssigneeRow>

    function Value(): seq<Assignee>
      reads this, assignees
    {
      seq(|assignees|, i requires 0 <= i < |assignees| reads this, assignees => assignees[i].Value())
    }

    /** One active assignment per task and user, and every row stored once. */
    ghost predicate Valid()
      reads this, assignees
    {
      && (forall i, j | 0 <= i < j < |assignees| :: assignees[i] != assignees[j])
      && (forall i, j | 0 <= i < j < |assignees| && assignees[i].removedAt.None? && assignees[j].removedAt.None? ::
            assignees[i].task != assignees[j].task || assignees[i].user != assignees[j].user)
    }

    method CreateAssignee(l: Ledger, caller: Caller, task: Option<Task>, canManage: bool, candidate: Option<Candidate>,
                          memberOrStandalone: bool) returns (refusal: Option<Refusal>)
      requires Valid()
      modifies this
      ensures Valid()
      ensures refusal == Refuse(old(Value()), l, caller, task, canManage, candidate, memberOrStandalone)
      ensures Value() == if refusal.Some? then old(Value())
                         else old(Value()) + [Assignee(task.value.id, candidate.value.id, caller.id, None, None)]
    {
      if caller.org.None? {
        return Some(NoOrganization);
      }
      if task.None? {
        return Some(TaskNotFound);
      }
      if !canManage {
        return Some(InsufficientPermission);
      }
      if candidate.None? || !candidate.value.active {
        return Some(UserNotFound);
      }
      if candidate.value.org != caller.org {
        return Some(CrossOrganization);
      }
      if !memberOrStandalone {
        return Some(ProjectMembershipRequired);
      }
      var taken := IsAssigned(task.value.id, candidate.value.id);
      if taken {
        return Some(AlreadyAssigned);
      }
      if HasConflictingLeave(l, candidate.value.id, task.value.startDate, task.value.dueDate) {
        return Some(EmployeeOnLeave);
      }
      AddRow(task.value.id, candidate.value.id, caller.id);
      return None;
    }

    /** `get_active_by_task_and_user` finds a row. */
    method IsAssigned(task: TaskId, user: UserId) returns (found: bool)
      ensures found <==> ActivelyAssigned(Value(), task, user)
    {
      for i := 0 to |assignees|
        invariant forall j | 0 <= j < i ::
                    assignees[j].task != task || assignees[j].user != user || assignees[j].removedAt.Some?
      {
        if assignees[i].task == task && assignees[i].user == user && assignees[i].removedAt.None? {
          assert Value()[i] == assignees[i].Value();
          return true;
        }
      }
      return false;
    }

    method AddRow(task: TaskId, user: UserId, assignedBy: UserId)
      requires Valid() && !ActivelyAssigned(Value(), task, user)
      modifies this
      ensures Valid() && Value() == old(Value()) + [Assignee(task, user, assignedBy, None, None)]
    {
      var row := new AssigneeRow(task, user, assignedBy);
      assert forall i | 0 <= i < |assignees| :: assignees[i].Value() == Value()[i];
      assignees := assignees + [row];
    }

    /** The row at `i`, if it is there and still active, is removed in place; `task` is its task, looked
        up whether or not it has been deleted. */
    method DeleteAssignee(i: nat, task: Option<Task>, canManage: bool, caller: Caller, now: Time)
        returns (refusal: Option<Refusal>)
      requires Valid()
      modifies assignees
      ensures Valid() && assignees == old(assignees)
      ensures refusal == if i >= |assignees| || old(Value())[i].removedAt.Some? then Some(AssignmentNotFound)
                         else if task.None? then Some(TaskNotFound)
                         else if !canManage then Some(InsufficientPermission) else None
      ensures Value() == if refusal.Some? then old(Value())
                         else old(Value())[i := old(Value())[i].(removedAt := Some(now), removedBy := Some(caller.id))]
    {
      if i >= |assignees| || assignees[i].removedAt.Some? {
        return Some(AssignmentNotFound);
      }
      if task.None? {
        return Some(TaskNotFound);
      }
      if !canManage {
        return Some(InsufficientPermission);
      }
      assignees[i].removedAt := Some(now);
      assignees[i].removedBy := Some(caller.id);
      return None;
    }
  }

  // ----- what the summary check decides -----

  /** One live leave of the user has an active day on or before the window's end and an active day
      on or after its start. */
  ghost predicate SpansWindow(l: Ledger, user: UserId, first: Date, last: Date, id: LeaveId) {
    && id in l.leaves && l.leaves[id].user == user && l.leaves[id].deletedAt.None?
    && (exists e :: e in ActiveEntries(l.days, id) && e.date <= last)
    && (exists e :: e in ActiveEntries(l.days, id) && e.date >= first)
  }

  /** The summary check refuses exactly when some leave's active days reach across the window. */
  lemma ConflictIsExact(tr: seq<Ledger>, steps: seq<Step>, i: nat, user: UserId, start: Option<Date>, end: Option<Date>)
    requires IsRun(tr, steps) && i < |tr|
    ensures var window := Window(start, end);
            HasConflictingLeave(tr[i], user, start, end) <==>
              window.Some? && exists id :: SpansWindow(tr[i], user, window.value.0, window.value.1, id)
  {
    var l, window := tr[i], Window(start, end);
    if window.Some? {
      forall id | id in l.leaves && l.leaves[id].user == user && l.leaves[id].deletedAt.None?
        ensures l.leaves[id].startDate <= window.value.1 && l.leaves[id].endDate >= window.value.0 <==>
                SpansWindow(l, user, window.value.0, window.value.1, id)
      {
        SummaryAgreesWithDays(tr, steps, i, id);
      }
    }
  }

  ghost predicate OnLeave(l: Ledger, user: UserId, first: Date, last: Date, k: nat) {
    k < |l.days| && l.days[k].user == user && l.days[k].deletedAt.None? && first <= l.days[k].entry.date <= last
  }

  /** The days a task is known to be worked on: between its dates if it has both, on the one it has if it
      has one, none if it has none. */
  predicate WorkedOn(task: Task, day: Date) {
    match (task.startDate, task.dueDate)
    case (Some(start), Some(due)) => start <= day <= due
    case (Some(start), None) => day == start
    case (None, Some(due)) => day == due
    case (None, None) => false
  }

  lemma WindowIsTheDaysWorked(task: Task, day: Date)
    ensures var window := Window(task.startDate, task.dueDate);
            WorkedOn(task, day) <==> window.Some? && window.value.0 <= day <= window.value.1
  {}

  /** Some leave of the user has active days on or before the task's last day and on or after its first. */
  ghost predicate LeaveReachesAcross(l: Ledger, user: UserId, task: Task) {
    match (task.startDate, task.dueDate)
    case (Some(start), Some(due)) => exists id :: SpansWindow(l, user, start, due, id)
    case (Some(start), None) => exists id :: SpansWindow(l, user, start, start, id)
    case (None, Some(due)) => exists id :: SpansWindow(l, user, due, due, id)
    case (None, None) => false
  }

  /** A request is refused for the first of these that holds, and for nothing else. */
  lemma AssignmentIsExact(tr: seq<Ledger>, steps: seq<Step>, i: nat, rows: seq<Assignee>, caller: Caller,
                          task: Option<Task>, canManage: bool, candidate: Option<Candidate>, memberOrStandalone: bool)
    requires IsRun(tr, steps) && i < |tr|
    ensures Refuse(rows, tr[i], caller, task, canManage, candidate, memberOrStandalone) ==
            if caller.org.None? then Some(NoOrganization)
            else if task.None? then Some(TaskNotFound)
            else if !canManage then Some(InsufficientPermission)
            else if candidate.None? || !candidate.value.active then Some(UserNotFound)
            else if candidate.value.org != caller.org then Some(CrossOrganization)
            else if !memberOrStandalone then Some(ProjectMembershipRequired)
            else if exists k :: 0 <= k < |rows| && rows[k].task == task.value.id
                                && rows[k].user == candidate.value.id && rows[k].removedAt.None?
            then Some(AlreadyAssigned)
            else if LeaveReachesAcross(tr[i], candidate.value.id, task.value) then Some(EmployeeOnLeave)
            else None
  {
    if task.Some? && candidate.Some? {
      ConflictIsExact(tr, steps, i, candidate.value.id, task.value.startDate, task.value.dueDate);
    }
  }

  /** A successful assignment means the user has no active leave day on a day the task is known to be
      worked on, in any reachable ledger, though only the summaries were read. */
  lemma AssignmentAvoidsLeave(tr: seq<Ledger>, steps: seq<Step>, i: nat, rows: seq<Assignee>, caller: Caller,
                              task: Task, canManage: bool, candidate: Candidate, memberOrStandalone: bool, k: nat)
    requires IsRun(tr, steps) && i < |tr|
    requires Refuse(rows, tr[i], caller, Some(task), canManage, Some(candidate), memberOrStandalone).None?
    requires k < |tr[i].days| && tr[i].days[k].user == candidate.id && tr[i].days[k].deletedAt.None?
    ensures !WorkedOn(task, tr[i].days[k].entry.date)
  {
    var l, day := tr[i], tr[i].days[k].entry.date;
    WindowIsTheDaysWorked(task, day);
    if WorkedOn(task, day) {
      RunKeepsInv(tr, steps, i);
      assert RowInv(l, l.days[k]);
      SummaryAgreesWithDays(tr, steps, i, l.days[k].leave);
      EntriesMember(l.days, ActiveOf(l.days[k].leave), l.days[k].entry);
      assert Selects(l.days, ActiveOf(l.days[k].leave), l.days[k].entry, k);
    }
  }

  /** The converse fails: a leave with a gap refuses an assignment inside the gap. */
  lemma GapsAreRefused()
    ensures exists tr, steps, i: nat, user: UserId, day: Date ::
              IsRun(tr, steps) && i < |tr| && GapRefused(tr[i], user, day)
  {
    var es := [Entry(1, Full, None), Entry(3, Full, None)];
    var caller := Caller(0, Some(0), Employee);
    var step := CreateStep(0, caller, es, 0, None, 0);
    var l := Ledger(map[], []);
    assert ValidPayload(es);
    assert FirstDay(es[1..]) == es[1];
    assert RefuseCreate(l, caller, es, 0).None?;
    CreateFitsConstraints(l, 0, caller, es, 0, None, 0);
    var tr, steps := [l, Next(l, step)], [step];
    var l' := tr[1];
    assert l'.leaves[0].startDate == 1 && l'.leaves[0].endDate == 3 && l'.leaves[0].user == 0;
    assert IsRun(tr, steps) && GapRefused(tr[1], 0, 2);
  }

  ghost predicate GapRefused(l: Ledger, user: UserId, day: Date) {
    (forall k :: !OnLeave(l, user, day, day, k)) && HasConflictingLeave(l, user, Some(day), Some(day))
  }
}
