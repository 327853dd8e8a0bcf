/** The schedule merge of an update: after it the leave's active rows are the payload, one row a
    date, whatever was soft-deleted before; and nobody else's rows are touched. */
module LeaveMerge {
  import opened Prelude
  import opened Leave

  ghost predicate DistinctDates(es: seq<Entry>) {
    forall i, j | 0 <= i < j < |es| :: es[i].date != es[j].date
  }

  ghost predicate Selects(days: seq<Day>, keep: Day -> bool, e: Entry, i: int) {
    0 <= i < |days| && keep(days[i]) && days[i].entry == e
  }

  lemma {:induction false} EntriesMember(days: seq<Day>, keep: Day -> bool, e: Entry)
    ensures e in Entries(days, keep) <==> exists i :: Selects(days, keep, e, i)
  {
    if days != [] {
      var front, n := days[..|days| - 1], |days| - 1;
      EntriesMember(front, keep, e);
      if i :| Selects(front, keep, e, i) {
        assert Selects(days, keep, e, i);
      }
      if keep(days[n]) && days[n].entry == e {
        assert Selects(days, keep, e, n);
      }
      if i :| Selects(days, keep, e, i) {
        assert i < n ==> Selects(front, keep, e, i);
      }
    }
  }

  function Rewritten(d: Day, e: Entry): Day {
    d.(entry := e, slot := BuildSlot(e), deletedAt := None, deletedBy := None)
  }

  ghost predicate Holds(stored: seq<Day>, leave: LeaveId, date: Date) {
    exists i :: 0 <= i < |stored| && stored[i].leave == leave && stored[i].entry.date == date
  }

  /** A stored row after the payload days `done`. */
  ghost predicate StoredRow(d: Day, before: Day, leave: LeaveId, done: seq<Entry>) {
    if before.leave == leave && Requested(done, before.entry.date)
    then exists e :: e in done && e.date == before.entry.date && d == Rewritten(before, e)
    else d == before
  }

  /** A row added for one of the payload days `done`. */
  ghost predicate AddedRow(d: Day, stored: seq<Day>, leave: LeaveId, user: UserId, done: seq<Entry>) {
    d.entry in done && d == NewDay(leave, user, d.entry) && !Holds(stored, leave, d.entry.date)
  }

  ghost predicate Covered(days: seq<Day>, leave: LeaveId, e: Entry) {
    exists i :: Selects(days, ActiveOf(leave), e, i)
  }

  ghost predicate MergedAs(days: seq<Day>, stored: seq<Day>, leave: LeaveId, user: UserId, done: seq<Entry>) {
    && |stored| <= |days| && Unique(days)
    && (forall i | 0 <= i < |stored| :: StoredRow(days[i], stored[i], leave, done))
    && (forall i | |stored| <= i < |days| :: AddedRow(days[i], stored, leave, user, done))
    && (forall e | e in done :: Covered(days, leave, e))
  }

  lemma NewDateIsNotRequested(done: seq<Entry>, e: Entry)
    requires DistinctDates(done + [e])
    ensures !Requested(done, e.date)
  {
    if other :| other in done && other.date == e.date {
      var i :| 0 <= i < |done| && done[i] == other;
      assert (done + [e])[i] == other && (done + [e])[|done|] == e;
    }
  }

  lemma MergeAdds(days: seq<Day>, stored: seq<Day>, leave: LeaveId, user: UserId, done: seq<Entry>, e: Entry)
    requires MergedAs(days, stored, leave, user, done) && !Requested(done, e.date)
    requires FindRow(days, |stored|, leave, e.date).None?
    ensures MergedAs(days + [NewDay(leave, user, e)], stored, leave, user, done + [e])
  {
    var after := days + [NewDay(leave, user, e)];
    assert !Holds(stored, leave, e.date) by {
      assert forall i | 0 <= i < |stored| :: StoredRow(days[i], stored[i], leave, done);
    }
    forall i | 0 <= i < |stored|
      ensures StoredRow(after[i], stored[i], leave, done + [e])
    {
      assert StoredRow(days[i], stored[i], leave, done);
    }
    forall i | |stored| <= i < |after|
      ensures AddedRow(after[i], stored, leave, user, done + [e])
    {
      assert i < |days| ==> AddedRow(days[i], stored, leave, user, done);
    }
    forall i | 0 <= i < |days|
      ensures days[i].leave != leave || days[i].entry.date != e.date
    {
      assert i >= |stored| ==> AddedRow(days[i], stored, leave, user, done);
    }
    forall x | x in done + [e]
      ensures Covered(after, leave, x)
    {
      if x in done {
        assert Covered(days, leave, x);
        var i :| Selects(days, ActiveOf(leave), x, i);
        assert Selects(after, ActiveOf(leave), x, i);
      } else {
        assert Selects(after, ActiveOf(leave), x, |days|);
      }
    }
  }

  lemma MergeRewrites(days: seq<Day>, stored: seq<Day>, leave: LeaveId, user: UserId, done: seq<Entry>, e: Entry,
                      k: nat)
    requires MergedAs(days, stored, leave, user, done) && !Requested(done, e.date)
    requires k < |stored| && days[k].leave == leave && days[k].entry.date == e.date
    ensures MergedAs(days[k := Rewritten(days[k], e)], stored, leave, user, done + [e])
  {
    var after := days[k := Rewritten(days[k], e)];
    assert StoredRow(days[k], stored[k], leave, done);
    forall i | 0 <= i < |stored|
      ensures StoredRow(after[i], stored[i], leave, done + [e])
    {
      assert StoredRow(days[i], stored[i], leave, done);
      if i == k {
        assert e in done + [e];
      } else {
        assert days[i].leave != leave || days[i].entry.date != e.date;
      }
    }
    forall i | |stored| <= i < |after|
      ensures AddedRow(after[i], stored, leave, user, done + [e])
    {
      assert AddedRow(days[i], stored, leave, user, done);
    }
    forall x | x in done + [e]
      ensures Covered(after, leave, x)
    {
      if x in done {
        assert Covered(days, leave, x);
        var i :| Selects(days, ActiveOf(leave), x, i);
        assert i != k;
        assert Selects(after, ActiveOf(leave), x, i);
      } else {
        assert Selects(after, ActiveOf(leave), x, k);
      }
    }
  }

  lemma {:induction false} MergeKeepsOneRowADate(stored: seq<Day>, leave: LeaveId, user: UserId, es: seq<Entry>)
    requires Unique(stored) && DistinctDates(es)
    ensures MergedAs(Merge(stored, |stored|, leave, user, es), stored, leave, user, es)
    decreases |es|
  {
    if es != [] {
      var done, e := es[..|es| - 1], es[|es| - 1];
      assert es == done + [e];
      MergeKeepsOneRowADate(stored, leave, user, done);
      var days := Merge(stored, |stored|, leave, user, done);
      NewDateIsNotRequested(done, e);
      match FindRow(days, |stored|, leave, e.date)
      case None => MergeAdds(days, stored, leave, user, done, e);
      case Some(k) => MergeRewrites(days, stored, leave, user, done, e, k);
    }
  }

  /** After a schedule update with distinct dates the leave's active rows are the payload. */
  lemma ActiveRowsArePayload(stored: seq<Day>, leave: LeaveId, user: UserId, es: seq<Entry>, actor: UserId, now: Time,
                             e: Entry)
    requires Unique(stored) && DistinctDates(es)
    ensures e in ActiveEntries(Rescheduled(stored, leave, user, es, actor, now), leave) <==> e in es
  {
    var merged := Merge(stored, |stored|, leave, user, es);
    var after := Rescheduled(stored, leave, user, es, actor, now);
    MergeKeepsOneRowADate(stored, leave, user, es);
    EntriesMember(after, ActiveOf(leave), e);
    if e in es {
      assert Covered(merged, leave, e);
      var i :| Selects(merged, ActiveOf(leave), e, i);
      assert i < |stored| ==> StoredRow(merged[i], stored[i], leave, es);
      assert Selects(after, ActiveOf(leave), e, i);
    }
    if i :| Selects(after, ActiveOf(leave), e, i) {
      if i < |stored| {
        assert StoredRow(merged[i], stored[i], leave, es);
      } else {
        assert AddedRow(merged[i], stored, leave, user, es);
      }
    }
  }

  /** There is still one row per leave and date; stored rows keep their leave, user and date; rows
      of other leaves are as they were; a stored row of this leave is active with the requested
      entry of its date, or soft-deleted when its date is not requested; and rows are added only
      for dates that no stored row held. */
  lemma MergeRowByRow(stored: seq<Day>, leave: LeaveId, user: UserId, es: seq<Entry>, actor: UserId, now: Time)
    requires Unique(stored) && DistinctDates(es)
    ensures var after := Rescheduled(stored, leave, user, es, actor, now);
            && |stored| <= |after| && Unique(after)
            && (forall i | 0 <= i < |stored| ::
                  after[i].leave == stored[i].leave && after[i].user == stored[i].user
                  && after[i].entry.date == stored[i].entry.date)
            && (forall i | 0 <= i < |stored| && stored[i].leave != leave :: after[i] == stored[i])
            && (forall i | 0 <= i < |stored| && stored[i].leave == leave ::
                  if Requested(es, stored[i].entry.date)
                  then after[i].deletedAt.None? && after[i].deletedBy.None? && after[i].entry in es
                       && after[i].slot == BuildSlot(after[i].entry)
                  else after[i] == if stored[i].deletedAt.Some? then stored[i]
                                   else stored[i].(deletedAt := Some(now), deletedBy := Some(actor)))
            && (forall i | |stored| <= i < |after| ::
                  after[i] == NewDay(leave, user, after[i].entry) && after[i].entry in es
                  && !Holds(stored, leave, after[i].entry.date))
  {
    var merged := Merge(stored, |stored|, leave, user, es);
    var after := Rescheduled(stored, leave, user, es, actor, now);
    MergeKeepsOneRowADate(stored, leave, user, es);
    forall i | 0 <= i < |after|
      ensures i < |stored| ==> StoredRow(merged[i], stored[i], leave, es)
      ensures i >= |stored| ==> AddedRow(merged[i], stored, leave, user, es)
      ensures after[i].leave == merged[i].leave && after[i].entry == merged[i].entry
    {
    }
  }
}
