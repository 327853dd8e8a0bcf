/** Runs of create, update and delete on the leave ledger under a clock that never runs backwards. */
module LeaveRuns {
  import opened Prelude
  import opened Leave
  import opened LeaveMerge
  import opened LeaveLedger

  datatype Step =
    | CreateStep(id: LeaveId, caller: Caller, es: seq<Entry>, leaveType: LeaveType, reason: Option<string>, now: Time)
    | UpdateStep(id: LeaveId, u: Update, caller: Caller, now: Time)
    | DeleteStep(id: LeaveId, caller: Caller, now: Time)

  /** New leaves get new ids, and a list of days names each date once, well-formed. */
  ghost predicate Enabled(l: Ledger, step: Step) {
    match step
    case CreateStep(id, _, es, _, _, _) => id !in l.leaves && ValidPayload(es)
    case UpdateStep(_, u, _, _) => u.days.Some? ==> ValidPayload(u.days.value)
    case DeleteStep(_, _, _) => true
  }

  ghost function Attempt(l: Ledger, step: Step): Result<Ledger, Error> {
    match step
    case CreateStep(id, caller, es, leaveType, reason, now) => Create(l, id, caller, es, leaveType, reason, now)
    case UpdateStep(id, u, caller, now) => UpdateLeave(l, id, u, caller, now)
    case DeleteStep(id, caller, now) => DeleteLeave(l, id, caller, now)
  }

  /** A refused request leaves the ledger as it was. */
  ghost function Next(l: Ledger, step: Step): Ledger {
    var r := Attempt(l, step);
    if r.Ok? then r.value else l
  }

  ghost predicate IsRun(tr: seq<Ledger>, steps: seq<Step>) {
    && |tr| == |steps| + 1
    && tr[0] == Ledger(map[], [])
    && (forall i {:trigger steps[i]} | 0 <= i < |steps| ::
          Enabled(tr[i], steps[i]) && tr[i + 1] == Next(tr[i], steps[i]))
    && (forall i, j | 0 <= i < j < |steps| :: steps[i].now <= steps[j].now)
  }

  lemma {:induction false} RunKeepsInv(tr: seq<Ledger>, steps: seq<Step>, i: nat)
    requires IsRun(tr, steps) && i < |tr|
    ensures Inv(tr[i])
  {
    if i > 0 {
      RunKeepsInv(tr, steps, i - 1);
      match steps[i - 1]
      case CreateStep(id, caller, es, leaveType, reason, now) =>
        CreateKeepsInv(tr[i - 1], id, caller, es, leaveType, reason, now);
      case UpdateStep(id, u, caller, now) => UpdateKeepsInv(tr[i - 1], id, u, caller, now);
      case DeleteStep(id, caller, now) => DeleteKeepsInv(tr[i - 1], id, caller, now);
    }
  }

  // ----- no overlap -----

  /** Active rows of one user never overlap, whichever leaves they belong to. */
  lemma LeaveNeverOverlaps(tr: seq<Ledger>, steps: seq<Step>, i: nat, a: nat, b: nat)
    requires IsRun(tr, steps) && i < |tr| && a < |tr[i].days| && b < |tr[i].days| && a != b
    requires tr[i].days[a].deletedAt.None? && tr[i].days[b].deletedAt.None?
    requires tr[i].days[a].user == tr[i].days[b].user && tr[i].days[a].entry.date == tr[i].days[b].entry.date
    ensures !Overlap(tr[i].days[a].slot, tr[i].days[b].slot)
  {
    RunKeepsInv(tr, steps, i);
    assert if a < b then Compatible(tr[i].days[a], tr[i].days[b]) else Compatible(tr[i].days[b], tr[i].days[a]);
  }

  /** In every reachable ledger the service's own checks decide: the database constraints never
      refuse what they let through. */
  lemma ConstraintsNeverFire(tr: seq<Ledger>, steps: seq<Step>, i: nat, step: Step)
    requires IsRun(tr, steps) && i < |tr| && Enabled(tr[i], step)
    ensures step.CreateStep? ==>
              (Attempt(tr[i], step).Ok? <==> RefuseCreate(tr[i], step.caller, step.es, step.now).None?)
    ensures step.UpdateStep? ==>
              (Attempt(tr[i], step).Ok? <==> RefuseUpdate(tr[i], step.id, step.u, step.caller, step.now).None?)
  {
    var l := tr[i];
    RunKeepsInv(tr, steps, i);
    if step.CreateStep? && RefuseCreate(l, step.caller, step.es, step.now).None? {
      CreateFitsConstraints(l, step.id, step.caller, step.es, step.leaveType, step.reason, step.now);
    }
    if step.UpdateStep? && RefuseUpdate(l, step.id, step.u, step.caller, step.now).None? && step.u.days.Some? {
      RescheduleFitsConstraints(l, step.id, step.u.days.value, step.caller.id, step.now);
    }
  }

  function ActiveIn(user: UserId, first: Date, last: Date): Day -> bool {
    (d: Day) => d.user == user && d.deletedAt.None? && first <= d.entry.date <= last
  }

  /** The n integers from `lo` on. */
  function Range(lo: int, n: nat): (range: set<int>)
    ensures |range| == n && forall x :: x in range <==> lo <= x < lo + n
  {
    if n == 0 then {} else Range(lo, n - 1) + {lo + n - 1}
  }

  lemma UserDaysAreDisjoint(l: Ledger, user: UserId, first: Date, last: Date)
    requires Inv(l)
    ensures Disjoint(Entries(l.days, ActiveIn(user, first, last)))
  {
    var days, keep := l.days, ActiveIn(user, first, last);
    assert forall a | 0 <= a < |days| :: RowInv(l, days[a]);
    forall a, b | 0 <= a < b < |days| && keep(days[a]) && keep(days[b])
      ensures Apart(days[a].entry, days[b].entry)
    {
      assert Compatible(days[a], days[b]);
    }
    SelectedAreDisjoint(days, keep);
  }

  lemma UnitsLieBetween(days: seq<Day>, user: UserId, first: Date, last: Date, x: int)
    requires x in AllUnits(Entries(days, ActiveIn(user, first, last)))
    ensures 2 * first <= x < 2 * last + 2
  {
    var es := Entries(days, ActiveIn(user, first, last));
    UnitOfSome(es, x);
    var e :| e in es && x in Units(e);
    EntriesMember(days, ActiveIn(user, first, last), e);
  }

  /** A user's active leave between two dates never exceeds the half-days between them. */
  lemma LeaveFitsTheCalendar(tr: seq<Ledger>, steps: seq<Step>, i: nat, user: UserId, first: Date, last: Date)
    requires IsRun(tr, steps) && i < |tr| && first <= last
    ensures TotalHalfDays(Entries(tr[i].days, ActiveIn(user, first, last))) <= 2 * (last - first + 1)
  {
    var es := Entries(tr[i].days, ActiveIn(user, first, last));
    RunKeepsInv(tr, steps, i);
    UserDaysAreDisjoint(tr[i], user, first, last);
    TotalCountsUnits(es);
    var halves := Range(2 * first, 2 * (last - first + 1));
    forall x | x in AllUnits(es)
      ensures x in halves
    {
      UnitsLieBetween(tr[i].days, user, first, last, x);
    }
    SubsetIsSmaller(AllUnits(es), halves);
  }

  // ----- the derived columns -----

  /** A live leave has active days, and its start, end and total are their least date, their
      greatest date and their sum; a deleted leave has none. */
  lemma SummaryAgreesWithDays(tr: seq<Ledger>, steps: seq<Step>, i: nat, id: LeaveId)
    requires IsRun(tr, steps) && i < |tr| && id in tr[i].leaves
    ensures var es, leave := ActiveEntries(tr[i].days, id), tr[i].leaves[id];
            if leave.deletedAt.Some? then es == []
            else
              && (exists e :: e in es && e.date == leave.startDate)
              && (exists e :: e in es && e.date == leave.endDate)
              && (forall e | e in es :: leave.startDate <= e.date <= leave.endDate)
              && leave.total == TotalHalfDays(es)
  {
    RunKeepsInv(tr, steps, i);
    var es := ActiveEntries(tr[i].days, id);
    if tr[i].leaves[id].deletedAt.Some? {
      assert forall k | 0 <= k < |tr[i].days| :: RowInv(tr[i], tr[i].days[k]);
      if es != [] {
        EntriesMember(tr[i].days, ActiveOf(id), es[0]);
      }
    } else {
      assert Summary(tr[i], id);
      assert FirstDay(es) in es;
    }
  }

  // ----- started leave -----

  /** The active rows whose period has begun by `t`. */
  ghost function Started(days: seq<Day>, t: Time): set<Day> {
    set i | 0 <= i < |days| && days[i].deletedAt.None? && PeriodStart(days[i].entry) <= t :: days[i]
  }

  /** The earliest date has the least period start, because no date comes twice. */
  lemma EarliestDayStartsFirst(es: seq<Entry>, e: Entry)
    requires DistinctDates(es) && e in es
    ensures PeriodStart(FirstDay(es)) <= PeriodStart(e)
  {
    var first := FirstDay(es);
    var i :| 0 <= i < |es| && es[i] == first;
    var j :| 0 <= j < |es| && es[j] == e;
  }

  lemma {:induction false} LeaveDatesAreDistinct(days: seq<Day>, id: LeaveId)
    requires Unique(days)
    ensures DistinctDates(ActiveEntries(days, id))
  {
    if days != [] {
      var front, last := days[..|days| - 1], days[|days| - 1];
      LeaveDatesAreDistinct(front, id);
      var es := ActiveEntries(front, id);
      if ActiveOf(id)(last) {
        forall i | 0 <= i < |es|
          ensures es[i].date != last.entry.date
        {
          EntriesMember(front, ActiveOf(id), es[i]);
          var k :| Selects(front, ActiveOf(id), es[i], k);
          assert days[k].leave == days[|days| - 1].leave;
        }
      }
    }
  }

  /** If a leave's first active period is still to come, none of its active rows has begun. */
  lemma NothingBegun(days: seq<Day>, id: LeaveId, now: Time, i: nat)
    requires Unique(days) && ActiveEntries(days, id) != [] && PeriodStart(FirstDay(ActiveEntries(days, id))) > now
    requires i < |days| && days[i].leave == id && days[i].deletedAt.None?
    ensures PeriodStart(days[i].entry) > now
  {
    var es := ActiveEntries(days, id);
    LeaveDatesAreDistinct(days, id);
    EntriesMember(days, ActiveOf(id), days[i].entry);
    assert Selects(days, ActiveOf(id), days[i].entry, i);
    EarliestDayStartsFirst(es, days[i].entry);
  }

  /** Rows that are equal, or active in neither or late in both, do not change what has begun. */
  lemma SameStarted(days: seq<Day>, after: seq<Day>, t: Time)
    requires |days| <= |after|
    requires forall i | 0 <= i < |days| ::
               after[i] == days[i] || ((days[i].deletedAt.Some? || PeriodStart(days[i].entry) > t)
                                       && (after[i].deletedAt.Some? || PeriodStart(after[i].entry) > t))
    requires forall i | |days| <= i < |after| :: after[i].deletedAt.Some? || PeriodStart(after[i].entry) > t
    ensures Started(after, t) == Started(days, t)
  {
    forall d
      ensures d in Started(after, t) <==> d in Started(days, t)
    {
      if d in Started(after, t) {
        var i :| 0 <= i < |after| && after[i].deletedAt.None? && PeriodStart(after[i].entry) <= t && after[i] == d;
        assert days[i] == d;
      }
      if d in Started(days, t) {
        var i :| 0 <= i < |days| && days[i].deletedAt.None? && PeriodStart(days[i].entry) <= t && days[i] == d;
        assert after[i] == d;
      }
    }
  }

  lemma CreateKeepsStarted(l: Ledger, step: Step, t: Time)
    requires step.CreateStep? && Enabled(l, step) && t <= step.now
    ensures Started(Next(l, step).days, t) == Started(l.days, t)
  {
    if Attempt(l, step).Ok? {
      forall e | e in step.es
        ensures PeriodStart(e) > t
      {
        EarliestDayStartsFirst(step.es, e);
      }
      SameStarted(l.days, Next(l, step).days, t);
    }
  }

  lemma RescheduleKeepsStarted(l: Ledger, id: LeaveId, es: seq<Entry>, actor: UserId, now: Time, t: Time)
    requires Unique(l.days) && id in l.leaves && es != [] && DistinctDates(es) && t <= now
    requires ActiveEntries(l.days, id) != [] && PeriodStart(FirstDay(ActiveEntries(l.days, id))) > now
    requires PeriodStart(FirstDay(es)) > now
    ensures Started(Rescheduled(l.days, id, l.leaves[id].user, es, actor, now), t) == Started(l.days, t)
  {
    var days, user := l.days, l.leaves[id].user;
    var after := Rescheduled(days, id, user, es, actor, now);
    forall e | e in es
      ensures PeriodStart(e) > t
    {
      EarliestDayStartsFirst(es, e);
    }
    MergeRowByRow(days, id, user, es, actor, now);
    forall i | 0 <= i < |days|
      ensures after[i] == days[i] || ((days[i].deletedAt.Some? || PeriodStart(days[i].entry) > t)
                                      && (after[i].deletedAt.Some? || PeriodStart(after[i].entry) > t))
    {
      if days[i].leave == id && days[i].deletedAt.None? {
        NothingBegun(days, id, now, i);
      }
    }
    SameStarted(days, after, t);
  }

  lemma DeleteKeepsStarted(l: Ledger, step: Step, t: Time)
    requires step.DeleteStep? && Unique(l.days) && t <= step.now
    ensures Started(Next(l, step).days, t) == Started(l.days, t)
  {
    var days, after := l.days, Next(l, step).days;
    if Attempt(l, step).Ok? {
      forall i | 0 <= i < |days|
        ensures after[i] == days[i]
                || ((days[i].deletedAt.Some? || PeriodStart(days[i].entry) > t) && after[i].deletedAt.Some?)
      {
        if days[i].leave == step.id && days[i].deletedAt.None? {
          NothingBegun(days, step.id, step.now, i);
        }
      }
      SameStarted(days, after, t);
    }
  }

  /** The only step that can touch leave that has begun. */
  predicate PrivilegedUpdate(step: Step) {
    step.UpdateStep? && Privileged(step.caller)
  }

  lemma StepKeepsStarted(l: Ledger, step: Step, t: Time)
    requires Inv(l) && Enabled(l, step) && !PrivilegedUpdate(step) && t <= step.now
    ensures Started(Next(l, step).days, t) == Started(l.days, t)
  {
    match step
    case CreateStep(_, _, _, _, _, _) => CreateKeepsStarted(l, step, t);
    case DeleteStep(_, _, _) => DeleteKeepsStarted(l, step, t);
    case UpdateStep(id, u, caller, now) =>
      if Attempt(l, step).Ok? && u.days.Some? {
        RescheduleKeepsStarted(l, id, u.days.value, caller.id, now, t);
      }
  }

  /** The active rows some half of which has begun by `t`. */
  ghost function Begun(days: seq<Day>, t: Time): set<Day> {
    set i | 0 <= i < |days| && days[i].deletedAt.None? && HasBegun(days[i].entry, t) :: days[i]
  }

  lemma BegunIsStarted(days: seq<Day>, t: Time)
    ensures Begun(days, t) == Started(days, t)
  {
    forall i | 0 <= i < |days|
      ensures HasBegun(days[i].entry, t) <==> PeriodStart(days[i].entry) <= t
    {
      PeriodStartsWithItsFirstHalf(days[i].entry);
    }
  }

  lemma {:induction false} StretchKeepsStarted(tr: seq<Ledger>, steps: seq<Step>, i: nat, j: nat, t: Time)
    requires IsRun(tr, steps) && i <= j < |tr|
    requires forall k | i <= k < j :: !PrivilegedUpdate(steps[k]) && t <= steps[k].now
    ensures Started(tr[j].days, t) == Started(tr[i].days, t)
    decreases j
  {
    if i < j {
      StretchKeepsStarted(tr, steps, i, j - 1, t);
      RunStepKeepsStarted(tr, steps, j - 1, t);
    }
  }

  lemma RunStepKeepsStarted(tr: seq<Ledger>, steps: seq<Step>, k: nat, t: Time)
    requires IsRun(tr, steps) && k < |steps| && !PrivilegedUpdate(steps[k]) && t <= steps[k].now
    ensures Started(tr[k + 1].days, t) == Started(tr[k].days, t)
  {
    RunKeepsInv(tr, steps, k);
    StepKeepsStarted(tr[k], steps[k], t);
  }

  /** Leave that has begun is frozen: in any stretch of a run without updates by an admin or a
      manager, the active rows some half of which had begun before it are the same at its end. */
  lemma StartedLeaveIsFrozen(tr: seq<Ledger>, steps: seq<Step>, i: nat, j: nat, t: Time)
    requires IsRun(tr, steps) && i <= j < |tr|
    requires forall k | i <= k < j ::
               !(steps[k].UpdateStep? && (steps[k].caller.role == Admin || steps[k].caller.role == Manager))
               && t <= steps[k].now
    ensures Begun(tr[j].days, t) == Begun(tr[i].days, t)
  {
    StretchKeepsStarted(tr, steps, i, j, t);
    BegunIsStarted(tr[i].days, t);
    BegunIsStarted(tr[j].days, t);
  }
}
