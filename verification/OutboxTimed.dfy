/** Runs in which every record lands less than five minutes after its claim. Under that hypothesis
    a row has one live holder at a time and is finished once; only a send that itself outlasts the
    five minutes can still go out after that. */
module OutboxTimed {
  import opened Prelude
  import opened OutboxRows
  import opened OutboxProtocol

  ghost predicate Live(s: State, ticket: Ticket) {
    ticket in s.holds && s.now < s.holds[ticket].claimedAt + STALE_AFTER
  }

  ghost predicate Timely(s: State, step: Step) {
    step.Record? ==> Live(s, step.ticket)
  }

  ghost predicate IsTimelyRun(base: int, tr: seq<State>, steps: seq<Step>) {
    && IsRun(base, tr, steps)
    && forall i | 0 <= i < |steps| :: Timely(tr[i], steps[i])
  }

  // ----- the invariant -----

  ghost predicate Owns(s: State, ticket: Ticket)
    requires ticket in s.holds
  {
    var hold := s.holds[ticket];
    hold.row in s.rows && s.rows[hold.row].status == Processing
    && s.rows[hold.row].lockedAt == Some(hold.claimedAt)
  }

  /** Consecutive recorded failures are at least the backoff apart. */
  ghost predicate Spaced(base: int, failures: seq<Time>) {
    forall k | 1 <= k < |failures| :: failures[k] - failures[k - 1] >= ComputeBackoffSeconds(base, k) * SECOND
  }

  ghost predicate LogInv(base: int, r: Row, l: Log) {
    && |l.failures| == r.attempts
    && Spaced(base, l.failures)
    && l.sentMarks == (if r.status == Sent then 1 else 0)
    && r.attempts <= AttemptLimit(r)
    && (r.status != Failed ==> r.attempts < AttemptLimit(r))
    && (!Terminal(r) && r.attempts >= 1 ==>
          r.nextAttemptAt == l.failures[r.attempts - 1] + ComputeBackoffSeconds(base, r.attempts) * SECOND)
    && (r.status == Processing && r.lockedAt.Some? ==> r.nextAttemptAt <= r.lockedAt.value)
  }

  ghost predicate TimedInv(base: int, s: State) {
    && Inv(base, s)
    && (forall ticket | Live(s, ticket) :: Owns(s, ticket))
    && (forall a, b | Live(s, a) && Live(s, b) && s.holds[a].row == s.holds[b].row :: a == b)
    && (forall id | id in s.rows :: LogInv(base, s.rows[id], s.log[id]))
  }

  /** A row that can be claimed, or that is finished, is in nobody's live hands. */
  lemma NoLiveHolder(base: int, s: State, ticket: Ticket)
    requires TimedInv(base, s) && Live(s, ticket)
    ensures s.holds[ticket].row in s.rows
    ensures !Due(s.rows[s.holds[ticket].row], s.now) && !Terminal(s.rows[s.holds[ticket].row])
  {
    assert Owns(s, ticket);
  }

  /** A live hold after a step is either one before it, on a row the step does not claim, or new. */
  lemma LiveBefore(base: int, s: State, step: Step, ticket: Ticket)
    requires TimedInv(base, s) && Enabled(s, step) && Timely(s, step) && Live(Next(base, s, step), ticket)
    ensures ticket in s.holds ==>
              && Live(s, ticket) && Owns(s, ticket)
              && Next(base, s, step).holds[ticket].row == s.holds[ticket].row
              && Next(base, s, step).holds[ticket].claimedAt == s.holds[ticket].claimedAt
              && (step.Claim? ==> s.holds[ticket].row !in step.ids)
    ensures ticket !in s.holds ==>
              && step.Claim? && Issued(s.nextTicket, |step.ids|, ticket)
              && Next(base, s, step).holds[ticket] == Hold(step.ids[ticket - s.nextTicket], s.now, Unsent)
  {
    if ticket in s.holds {
      assert HoldInv(s, ticket);
      assert Live(s, ticket);
      NoLiveHolder(base, s, ticket);
    }
  }

  lemma StepKeepsOwners(base: int, s: State, step: Step, ticket: Ticket)
    requires TimedInv(base, s) && Enabled(s, step) && Timely(s, step) && Live(Next(base, s, step), ticket)
    ensures Owns(Next(base, s, step), ticket)
  {
    LiveBefore(base, s, step, ticket);
    if ticket in s.holds {
      assert step.Record? ==> s.holds[step.ticket].row != s.holds[ticket].row;
    } else {
      assert step.ids[ticket - s.nextTicket] in step.ids;
    }
  }

  lemma StepKeepsExclusivity(base: int, s: State, step: Step, a: Ticket, b: Ticket)
    requires TimedInv(base, s) && Enabled(s, step) && Timely(s, step)
    requires Live(Next(base, s, step), a) && Live(Next(base, s, step), b)
    requires Next(base, s, step).holds[a].row == Next(base, s, step).holds[b].row
    ensures a == b
  {
    LiveBefore(base, s, step, a);
    LiveBefore(base, s, step, b);
  }

  lemma RecordKeepsLog(base: int, r: Row, l: Log, error: Option<string>, now: Time)
    requires LogInv(base, r, l) && r.status == Processing && r.lockedAt.Some? && r.lockedAt.value <= now
    ensures LogInv(base, Recorded(base, r, error, now), LogRecord(l, error, now))
  {
    var l' := LogRecord(l, error, now);
    forall k | 1 <= k < |l'.failures|
      ensures l'.failures[k] - l'.failures[k - 1] >= ComputeBackoffSeconds(base, k) * SECOND
    {
      if k < |l.failures| {
        assert l'.failures[k] == l.failures[k] && l'.failures[k - 1] == l.failures[k - 1];
      }
    }
  }

  lemma StepKeepsLog(base: int, s: State, step: Step, id: Id)
    requires TimedInv(base, s) && Enabled(s, step) && Timely(s, step) && id in s.rows
    ensures var s' := Next(base, s, step); id in s'.rows && id in s'.log && LogInv(base, s'.rows[id], s'.log[id])
  {
    var r, l := s.rows[id], s.log[id];
    assert LogInv(base, r, l) && RowInv(r, s.now);
    if step.Record? && s.holds[step.ticket].row == id {
      assert Owns(s, step.ticket) && HoldInv(s, step.ticket);
      RecordKeepsLog(base, r, l, s.holds[step.ticket].result.error, s.now);
    } else {
      RowAndLogAfter(base, s, step, id);
      ClaimKeepsLog(base, r, l, Next(base, s, step).log[id], s.now);
    }
  }

  /** What a step that does not record the row makes of it and of its history. */
  lemma RowAndLogAfter(base: int, s: State, step: Step, id: Id)
    requires Enabled(s, step) && id in s.rows && id in s.log
    requires step.Record? ==> s.holds[step.ticket].row != id
    ensures var s' := Next(base, s, step);
            && id in s'.rows && id in s'.log
            && s'.rows[id] == (if step.Claim? && id in step.ids then Claimed(s.rows[id], s.now) else s.rows[id])
            && s'.log[id].failures == s.log[id].failures && s'.log[id].sentMarks == s.log[id].sentMarks
            && (step.Claim? && id in step.ids ==> Due(s.rows[id], s.now))
  {}

  lemma ClaimKeepsLog(base: int, r: Row, l: Log, l': Log, now: Time)
    requires LogInv(base, r, l) && l'.failures == l.failures && l'.sentMarks == l.sentMarks
    ensures LogInv(base, r, l') && (Due(r, now) ==> LogInv(base, Claimed(r, now), l'))
  {}

  lemma StepKeepsLogs(base: int, s: State, step: Step)
    requires TimedInv(base, s) && Enabled(s, step) && Timely(s, step)
    ensures var s' := Next(base, s, step);
            forall id | id in s'.rows :: id in s'.log && LogInv(base, s'.rows[id], s'.log[id])
  {
    var s' := Next(base, s, step);
    forall id | id in s'.rows
      ensures id in s'.log && LogInv(base, s'.rows[id], s'.log[id])
    {
      if id in s.rows {
        StepKeepsLog(base, s, step, id);
      }
    }
  }

  lemma {:induction false} RunKeepsTimedInv(base: int, tr: seq<State>, steps: seq<Step>, i: nat)
    requires IsTimelyRun(base, tr, steps) && i < |tr|
    ensures TimedInv(base, tr[i])
  {
    if i > 0 {
      RunKeepsTimedInv(base, tr, steps, i - 1);
      StepKeepsInv(base, tr[i - 1], steps[i - 1]);
      StepKeepsLogs(base, tr[i - 1], steps[i - 1]);
      forall ticket | Live(tr[i], ticket)
        ensures Owns(tr[i], ticket)
      {
        StepKeepsOwners(base, tr[i - 1], steps[i - 1], ticket);
      }
      forall a, b | Live(tr[i], a) && Live(tr[i], b) && tr[i].holds[a].row == tr[i].holds[b].row
        ensures a == b
      {
        StepKeepsExclusivity(base, tr[i - 1], steps[i - 1], a, b);
      }
    }
  }

  // ----- safety -----

  /** Two workers never hold the same row within the five minutes. */
  lemma AtMostOneLiveHolder(base: int, tr: seq<State>, steps: seq<Step>, i: nat, a: Ticket, b: Ticket)
    requires IsTimelyRun(base, tr, steps) && i < |tr|
    requires Live(tr[i], a) && Live(tr[i], b) && tr[i].holds[a].row == tr[i].holds[b].row
    ensures a == b && Owns(tr[i], a)
  {
    RunKeepsTimedInv(base, tr, steps, i);
  }

  lemma TerminalStep(base: int, s: State, step: Step, id: Id)
    requires TimedInv(base, s) && Enabled(s, step) && Timely(s, step)
    requires id in s.rows && Terminal(s.rows[id])
    ensures id in Next(base, s, step).rows && Next(base, s, step).rows[id] == s.rows[id]
  {
    if step.Record? {
      NoLiveHolder(base, s, step.ticket);
    }
  }

  lemma {:induction false} TerminalStaysPut(base: int, tr: seq<State>, steps: seq<Step>, i: nat, j: nat, id: Id)
    requires IsTimelyRun(base, tr, steps) && i <= j < |tr|
    requires id in tr[i].rows && Terminal(tr[i].rows[id])
    ensures id in tr[j].rows && tr[j].rows[id] == tr[i].rows[id]
    decreases j
  {
    if i < j {
      TerminalStaysPut(base, tr, steps, i, j - 1, id);
      RunKeepsTimedInv(base, tr, steps, j - 1);
      TerminalStep(base, tr[j - 1], steps[j - 1], id);
    }
  }

  /** `sent` and `failed` are final: the row is never written again. */
  lemma FinishedRowsAreFinal(base: int, tr: seq<State>, steps: seq<Step>, i: nat, j: nat, id: Id)
    requires IsTimelyRun(base, tr, steps) && i <= j < |tr|
    requires id in tr[i].rows && Terminal(tr[i].rows[id])
    ensures id in tr[j].rows && tr[j].rows[id] == tr[i].rows[id]
  {
    TerminalStaysPut(base, tr, steps, i, j, id);
  }

  // ----- sends after the end -----

  /** A send of the row that ends when its claim is five minutes old or more. */
  ghost predicate IsLateSend(s: State, step: Step, id: Id) {
    step.FinishSend? && step.ticket in s.holds && s.holds[step.ticket].row == id && !Live(s, step.ticket)
  }

  /** Such sends among the steps i .. j - 1. */
  ghost function LateSends(tr: seq<State>, steps: seq<Step>, id: Id, i: nat, j: nat): nat
    requires i <= j <= |steps| < |tr|
    decreases j
  {
    if i == j then 0
    else LateSends(tr, steps, id, i, j - 1) + if IsLateSend(tr[j - 1], steps[j - 1], id) then 1 else 0
  }

  lemma TerminalSends(base: int, s: State, step: Step, id: Id)
    requires TimedInv(base, s) && Enabled(s, step) && id in s.rows && Terminal(s.rows[id])
    ensures id in s.log && id in Next(base, s, step).log
    ensures Next(base, s, step).log[id].sends == s.log[id].sends + if IsLateSend(s, step, id) then 1 else 0
  {
    if step.FinishSend? && Live(s, step.ticket) {
      NoLiveHolder(base, s, step.ticket);
    }
  }

  lemma StillTerminal(base: int, tr: seq<State>, steps: seq<Step>, i: nat, j: nat, id: Id)
    requires IsTimelyRun(base, tr, steps) && i <= j < |steps| && id in tr[i].rows && Terminal(tr[i].rows[id])
    ensures TimedInv(base, tr[j]) && Enabled(tr[j], steps[j]) && id in tr[j].rows && Terminal(tr[j].rows[id])
  {
    TerminalStaysPut(base, tr, steps, i, j, id);
    RunKeepsTimedInv(base, tr, steps, j);
  }

  /** Once a row is finished every further send of it is a late one, left over from a claim that has
      been given up for lost. */
  lemma {:induction false} OnlyLateSendsFollow(base: int, tr: seq<State>, steps: seq<Step>, i: nat, j: nat, id: Id)
    requires IsTimelyRun(base, tr, steps) && i <= j < |tr|
    requires id in tr[i].rows && Terminal(tr[i].rows[id])
    ensures id in tr[i].log && id in tr[j].log
    ensures tr[j].log[id].sends == tr[i].log[id].sends + LateSends(tr, steps, id, i, j)
    decreases j
  {
    if i == j {
      RunKeepsTimedInv(base, tr, steps, i);
    } else {
      OnlyLateSendsFollow(base, tr, steps, i, j - 1, id);
      StillTerminal(base, tr, steps, i, j - 1, id);
      TerminalSends(base, tr[j - 1], steps[j - 1], id);
      assert tr[j] == Next(base, tr[j - 1], steps[j - 1]);
    }
  }

  lemma {:induction false} LateSendsCount(tr: seq<State>, steps: seq<Step>, id: Id, i: nat, j: nat)
    requires i <= j <= |steps| < |tr|
    ensures LateSends(tr, steps, id, i, j) == 0 <==> forall k | i <= k < j :: !IsLateSend(tr[k], steps[k], id)
    decreases j
  {
    if i < j {
      LateSendsCount(tr, steps, id, i, j - 1);
    }
  }

  /** Nothing is sent after it is recorded sent, or failed, if and only if no send of the row ends
      late meanwhile. */
  lemma NeverSentAgainIff(base: int, tr: seq<State>, steps: seq<Step>, i: nat, j: nat, id: Id)
    requires IsTimelyRun(base, tr, steps) && i <= j < |tr|
    requires id in tr[i].rows && Terminal(tr[i].rows[id])
    ensures id in tr[i].log && id in tr[j].log
    ensures tr[j].log[id].sends == tr[i].log[id].sends <==>
            forall k | i <= k < j :: !IsLateSend(tr[k], steps[k], id)
  {
    OnlyLateSendsFollow(base, tr, steps, i, j, id);
    LateSendsCount(tr, steps, id, i, j);
  }

  ghost predicate SentAgain(tr: seq<State>, i: nat, id: Id) {
    i + 1 < |tr| && id in tr[i].rows && tr[i].rows[id].status == Sent && id in tr[i].log && id in tr[i + 1].log
    && tr[i + 1].log[id].sends > tr[i].log[id].sends
  }

  /** Timely records alone do not rule it out: a send that hangs for five minutes can end after a
      second worker has sent and recorded the same row. */
  lemma HungSendGoesOutAgain(base: int)
    ensures exists tr, steps, i: nat, id :: IsTimelyRun(base, tr, steps) && SentAgain(tr, i, id)
  {
    var tr, steps := ReclaimedRun(base);
    tr, steps := Extended(base, tr, steps, FinishSend(1, None));
    assert Live(tr[|steps|], 1);
    tr, steps := Extended(base, tr, steps, Record(1));
    tr, steps := Extended(base, tr, steps, FinishSend(0, None));
    assert IsTimelyRun(base, tr, steps) && SentAgain(tr, |tr| - 2, 0);
  }

  /** Unrecorded sends whose holder is past its five minutes: their record can no longer land. */
  ghost function Stranded(s: State, id: Id): set<Ticket> {
    set ticket | ticket in Unrecorded(s, id) && !Live(s, ticket)
  }

  lemma UnrecordedAreStrandedOrOne(base: int, s: State, id: Id)
    requires TimedInv(base, s) && id in s.rows
    ensures |Unrecorded(s, id)| <= |Stranded(s, id)| + if s.rows[id].status == Processing then 1 else 0
  {
    var all, stranded := Unrecorded(s, id), Stranded(s, id);
    if all - stranded == {} {
      assert all == stranded;
    } else {
      var ticket :| ticket in all - stranded;
      assert Live(s, ticket) && Owns(s, ticket);
      assert forall other | other in all - stranded :: Live(s, other) && other == ticket;
      assert all == stranded + {ticket};
    }
  }

  /** Attempts never exceed the limit, a failed row has used exactly the limit, and an email is
      sent at most that often, not counting sends whose result was lost or stranded. */
  lemma SendsAreBounded(base: int, tr: seq<State>, steps: seq<Step>, i: nat, id: Id)
    requires IsTimelyRun(base, tr, steps) && i < |tr| && id in tr[i].rows
    ensures var r := tr[i].rows[id];
            && r.attempts <= AttemptLimit(r)
            && (r.status == Failed ==> r.attempts == AttemptLimit(r))
    ensures id in tr[i].log
    ensures tr[i].log[id].sends <= AttemptLimit(tr[i].rows[id]) + tr[i].log[id].lost + |Stranded(tr[i], id)|
  {
    RunKeepsTimedInv(base, tr, steps, i);
    var s := tr[i];
    assert LogInv(base, s.rows[id], s.log[id]) && RowInv(s.rows[id], s.now) && Conserved(s, id);
    UnrecordedAreStrandedOrOne(base, s, id);
  }

  // ----- retry timing -----

  lemma {:induction false} SpacedFailures(base: int, failures: seq<Time>, n: nat)
    requires Spaced(base, failures) && 1 <= n <= |failures|
    ensures failures[n - 1] - failures[0] >= TotalBackoff(base, n) * SECOND
  {
    if n > 1 {
      SpacedFailures(base, failures, n - 1);
      assert failures[n - 1] - failures[n - 2] >= ComputeBackoffSeconds(base, n - 1) * SECOND;
    }
  }

  /** A row that has failed n times spread those failures over at least the n - 1 pauses between
      them; for a row marked failed, n is its attempt limit. */
  lemma FailuresAreSpreadOut(base: int, tr: seq<State>, steps: seq<Step>, i: nat, id: Id)
    requires IsTimelyRun(base, tr, steps) && i < |tr| && id in tr[i].rows
    requires tr[i].rows[id].attempts >= 1
    ensures id in tr[i].log && |tr[i].log[id].failures| == tr[i].rows[id].attempts
    ensures var failures := tr[i].log[id].failures;
            failures[|failures| - 1] - failures[0] >= TotalBackoff(base, tr[i].rows[id].attempts) * SECOND
  {
    RunKeepsTimedInv(base, tr, steps, i);
    assert LogInv(base, tr[i].rows[id], tr[i].log[id]);
    SpacedFailures(base, tr[i].log[id].failures, tr[i].rows[id].attempts);
  }
}
