/** Any number of workers over one outbox table: the interleaving of enqueues, claims, sends,
    records and losses, one database transaction a step, and what every run of it keeps. */
module OutboxProtocol {
  import opened Prelude
  import opened OutboxRows
  import opened OutboxQueue

  type Ticket = nat

  /** A finished send carries the error that `process_batch` will hand to `_record`. */
  datatype SendResult = Unsent | Finished(error: Option<string>)

  /** A job in some worker's hands: claimed, and neither recorded nor lost yet. */
  datatype Hold = Hold(row: Id, claimedAt: Time, result: SendResult)

  /** History of one row. */
  datatype Log = Log(sends: nat, sentMarks: nat, lost: nat, failures: seq<Time>)

  datatype State = State(
    now: Time,
    rows: Table,
    holds: map<Ticket, Hold>,
    nextTicket: Ticket,
    log: map<Id, Log>)

  datatype Step =
    | Enqueue(id: Id, maxAttempts: int)
    | Claim(ids: seq<Id>)
    | FinishSend(ticket: Ticket, error: Option<string>)
    | Record(ticket: Ticket)
    | Lose(ticket: Ticket)    // the worker dies, or its record transaction fails
    | Tick(to: Time)

  /** SKIP LOCKED and LIMIT mean that a claim takes some of the due rows, each once. */
  ghost predicate Claimable(s: State, ids: seq<Id>) {
    && (forall i, j | 0 <= i < j < |ids| :: ids[i] != ids[j])
    && (forall id | id in ids :: id in s.rows && Due(s.rows[id], s.now))
  }

  ghost predicate Enabled(s: State, step: Step) {
    match step
    case Enqueue(id, _) => id !in s.rows
    case Claim(ids) => Claimable(s, ids)
    case FinishSend(ticket, _) => ticket in s.holds && s.holds[ticket].result == Unsent
    case Record(ticket) => ticket in s.holds && s.holds[ticket].result != Unsent && s.holds[ticket].row in s.rows
                           && s.holds[ticket].row in s.log
    case Lose(ticket) => ticket in s.holds
    case Tick(to) => to >= s.now
  }

  predicate Issued(first: Ticket, count: nat, ticket: Ticket) {
    first <= ticket < first + count
  }

  /** One hold per claimed row, under consecutive fresh tickets. */
  function NewHolds(first: Ticket, ids: seq<Id>, now: Time): map<Ticket, Hold> {
    map ticket: Ticket | ticket < first + |ids| && Issued(first, |ids|, ticket) ::
      Hold(ids[ticket - first], now, Unsent)
  }

  function LogRecord(l: Log, error: Option<string>, now: Time): Log {
    match error
    case None => l.(sentMarks := l.sentMarks + 1)
    case Some(_) => l.(failures := l.failures + [now])
  }

  ghost function Next(base: int, s: State, step: Step): State
    requires Enabled(s, step)
  {
    match step
    case Enqueue(id, maxAttempts) =>
      s.(rows := s.rows[id := NewRow(maxAttempts, s.now)], log := s.log[id := Log(0, 0, 0, [])])
    case Claim(ids) =>
      s.(rows := ClaimRows(s.rows, ids, s.now),
         holds := s.holds + NewHolds(s.nextTicket, ids, s.now),
         nextTicket := s.nextTicket + |ids|)
    case FinishSend(ticket, error) =>
      var hold := s.holds[ticket];
      s.(holds := s.holds[ticket := hold.(result := Finished(error))],
         log := if hold.row in s.log
                then s.log[hold.row := s.log[hold.row].(sends := s.log[hold.row].sends + 1)] else s.log)
    case Record(ticket) =>
      var hold := s.holds[ticket];
      s.(rows := s.rows[hold.row := Recorded(base, s.rows[hold.row], hold.result.error, s.now)],
         holds := s.holds - {ticket},
         log := s.log[hold.row := LogRecord(s.log[hold.row], hold.result.error, s.now)])
    case Lose(ticket) =>
      var hold := s.holds[ticket];
      s.(holds := s.holds - {ticket},
         log := if hold.row in s.log && hold.result != Unsent
                then s.log[hold.row := s.log[hold.row].(lost := s.log[hold.row].lost + 1)] else s.log)
    case Tick(to) => s.(now := to)
  }

  ghost predicate IsInit(s: State) {
    s.rows == map[] && s.holds == map[] && s.log == map[]
  }

  /** `tr` is the sequence of states that `steps` leads through from an empty table. */
  ghost predicate IsRun(base: int, tr: seq<State>, steps: seq<Step>) {
    && |tr| == |steps| + 1
    && IsInit(tr[0])
    && forall i | 0 <= i < |steps| :: Enabled(tr[i], steps[i]) && tr[i + 1] == Next(base, tr[i], steps[i])
  }

  // ----- the invariant that needs no assumption about time -----

  /** Sends that finished and whose result is neither recorded nor lost. */
  ghost function UnrecordedIn(holds: map<Ticket, Hold>, id: Id): set<Ticket> {
    set ticket | ticket in holds && holds[ticket].row == id && holds[ticket].result != Unsent
  }

  ghost function Unrecorded(s: State, id: Id): set<Ticket> {
    UnrecordedIn(s.holds, id)
  }

  /** The columns that tell what the last write was. */
  ghost predicate Stamped(r: Row, now: Time) {
    && r.updatedAt <= now
    && (r.status == Processing ==> r.lockedAt == Some(r.updatedAt))
    && (r.status == Sent ==> r.sentAt == Some(r.updatedAt) && r.lastError == None)
    && (r.status == Failed || (r.status == Pending && r.attempts >= 1) ==> r.lastError.Some?)
    && (r.lastError.Some? ==> |r.lastError.value| <= MAX_ERROR_LENGTH)
  }

  ghost predicate RowInv(r: Row, now: Time) {
    && Stamped(r, now)
    && (r.lockedAt.Some? <==> r.status == Processing)
    && (r.lockedAt.Some? ==> r.lockedAt.value <= now)
    && (r.status == Pending || r.status == Processing ==> r.attempts < AttemptLimit(r))
    && (r.status == Failed ==> r.attempts >= AttemptLimit(r))
  }

  /** The latest time the current number of failures can have put the row off to. */
  ghost predicate NextAttemptInv(base: int, r: Row, now: Time) {
    r.nextAttemptAt <= now + if r.attempts == 0 then 0 else ComputeBackoffSeconds(base, r.attempts) * SECOND
  }

  ghost predicate HoldInv(s: State, ticket: Ticket)
    requires ticket in s.holds
  {
    ticket < s.nextTicket && s.holds[ticket].row in s.rows && s.holds[ticket].claimedAt <= s.now
  }

  /** Every finished send is accounted for once. */
  ghost predicate Conserved(s: State, id: Id)
    requires id in s.rows && id in s.log
  {
    s.log[id].sends == s.rows[id].attempts + s.log[id].sentMarks + s.log[id].lost + |Unrecorded(s, id)|
  }

  ghost predicate Inv(base: int, s: State) {
    && s.log.Keys == s.rows.Keys
    && (forall id | id in s.rows :: RowInv(s.rows[id], s.now))
    && (forall id | id in s.rows :: Conserved(s, id))
    && (forall ticket | ticket in s.holds :: HoldInv(s, ticket))
    && (base >= 0 ==> forall id | id in s.rows :: NextAttemptInv(base, s.rows[id], s.now))
  }

  lemma RowStepKeepsNextAttempt(base: int, r: Row, error: Option<string>, now: Time)
    requires base >= 0 && NextAttemptInv(base, r, now)
    ensures NextAttemptInv(base, Recorded(base, r, error, now), now)
    ensures r.nextAttemptAt <= Recorded(base, r, error, now).nextAttemptAt
  {
    BackoffMonotone(base, r.attempts, r.attempts + 1);
    BackoffAtLeastBase(base, r.attempts + 1);
  }

  lemma FinishUnrecorded(holds: map<Ticket, Hold>, ticket: Ticket, error: Option<string>, id: Id)
    requires ticket in holds && holds[ticket].result == Unsent
    ensures UnrecordedIn(holds[ticket := holds[ticket].(result := Finished(error))], id) ==
            if holds[ticket].row == id then UnrecordedIn(holds, id) + {ticket} else UnrecordedIn(holds, id)
    ensures ticket !in UnrecordedIn(holds, id)
  {}

  lemma DropUnrecorded(holds: map<Ticket, Hold>, ticket: Ticket, id: Id)
    requires ticket in holds
    ensures UnrecordedIn(holds - {ticket}, id) == UnrecordedIn(holds, id) - {ticket}
    ensures ticket in UnrecordedIn(holds, id) <==> holds[ticket].row == id && holds[ticket].result != Unsent
  {}

  lemma ClaimUnrecorded(holds: map<Ticket, Hold>, next: Ticket, ids: seq<Id>, now: Time, id: Id)
    requires forall ticket | ticket in holds :: ticket < next
    ensures UnrecordedIn(holds + NewHolds(next, ids, now), id) == UnrecordedIn(holds, id)
  {}

  /** How each step changes the finished-but-unrecorded sends of a row. */
  lemma UnrecordedAfter(base: int, s: State, step: Step, id: Id)
    requires Inv(base, s) && Enabled(s, step)
    ensures var after := Unrecorded(Next(base, s, step), id);
            match step
            case FinishSend(ticket, _) =>
              if s.holds[ticket].row == id then after == Unrecorded(s, id) + {ticket} && ticket !in Unrecorded(s, id)
              else after == Unrecorded(s, id)
            case Record(ticket) => after == Unrecorded(s, id) - {ticket}
            case Lose(ticket) => after == Unrecorded(s, id) - {ticket}
            case _ => after == Unrecorded(s, id)
  {
    match step
    case FinishSend(ticket, error) => FinishUnrecorded(s.holds, ticket, error, id);
    case Record(ticket) => DropUnrecorded(s.holds, ticket, id);
    case Lose(ticket) => DropUnrecorded(s.holds, ticket, id);
    case Claim(ids) =>
      assert forall ticket | ticket in s.holds :: HoldInv(s, ticket);
      ClaimUnrecorded(s.holds, s.nextTicket, ids, s.now, id);
    case _ =>
  }

  /** The same change as a number. */
  ghost function UnrecordedChange(s: State, step: Step, id: Id): int
    requires Enabled(s, step)
  {
    match step
    case FinishSend(ticket, _) => if s.holds[ticket].row == id then 1 else 0
    case Record(ticket) => if s.holds[ticket].row == id then -1 else 0
    case Lose(ticket) => if s.holds[ticket].row == id && s.holds[ticket].result != Unsent then -1 else 0
    case _ => 0
  }

  lemma UnrecordedCount(base: int, s: State, step: Step, id: Id)
    requires Inv(base, s) && Enabled(s, step)
    ensures |Unrecorded(Next(base, s, step), id)| == |Unrecorded(s, id)| + UnrecordedChange(s, step, id)
  {
    UnrecordedAfter(base, s, step, id);
    if step.Record? || step.Lose? {
      DropUnrecorded(s.holds, step.ticket, id);
    }
  }

  /** The other side of the account: sends less attempts, sent marks and losses. */
  lemma LogChange(base: int, s: State, step: Step, id: Id)
    requires Enabled(s, step) && id in s.rows && id in s.log
    ensures var s' := Next(base, s, step);
            id in s'.rows && id in s'.log
            && s'.log[id].sends - s'.rows[id].attempts - s'.log[id].sentMarks - s'.log[id].lost ==
               s.log[id].sends - s.rows[id].attempts - s.log[id].sentMarks - s.log[id].lost
               + UnrecordedChange(s, step, id)
  {}

  lemma StepConserves(base: int, s: State, step: Step, id: Id)
    requires Inv(base, s) && Enabled(s, step) && id in Next(base, s, step).rows
    ensures id in Next(base, s, step).log && Conserved(Next(base, s, step), id)
  {
    if id in s.rows {
      UnrecordedCount(base, s, step, id);
      LogChange(base, s, step, id);
      assert Conserved(s, id);
    } else {
      NewRowConserves(base, s, step, id);
    }
  }

  lemma NewRowConserves(base: int, s: State, step: Step, id: Id)
    requires Inv(base, s) && Enabled(s, step) && id !in s.rows && id in Next(base, s, step).rows
    ensures id in Next(base, s, step).log && Conserved(Next(base, s, step), id)
  {
    assert forall ticket | ticket in s.holds :: HoldInv(s, ticket);
    assert Unrecorded(Next(base, s, step), id) == {};
  }

  lemma StepKeepsHolds(base: int, s: State, step: Step)
    requires Inv(base, s) && Enabled(s, step)
    ensures var s' := Next(base, s, step); forall ticket | ticket in s'.holds :: HoldInv(s', ticket)
  {
    var s' := Next(base, s, step);
    forall ticket | ticket in s'.holds
      ensures HoldInv(s', ticket)
    {
      if ticket in s.holds {
        assert HoldInv(s, ticket);
      } else {
        assert step.Claim? && step.ids[ticket - s.nextTicket] in step.ids;
      }
    }
  }

  lemma RecordKeepsRow(base: int, r: Row, error: Option<string>, now: Time)
    requires RowInv(r, now)
    ensures RowInv(Recorded(base, r, error, now), now)
  {
  }

  lemma StepKeepsRows(base: int, s: State, step: Step)
    requires Inv(base, s) && Enabled(s, step)
    ensures var s' := Next(base, s, step); forall id | id in s'.rows :: RowInv(s'.rows[id], s'.now)
  {
    var s' := Next(base, s, step);
    forall id | id in s'.rows
      ensures RowInv(s'.rows[id], s'.now)
    {
      if id in s.rows {
        assert RowInv(s.rows[id], s.now);
        if step.Record? && s.holds[step.ticket].row == id {
          RecordKeepsRow(base, s.rows[id], s.holds[step.ticket].result.error, s.now);
        }
      }
    }
  }

  lemma StepKeepsNextAttempts(base: int, s: State, step: Step)
    requires base >= 0 && Inv(base, s) && Enabled(s, step)
    ensures var s' := Next(base, s, step); forall id | id in s'.rows :: NextAttemptInv(base, s'.rows[id], s'.now)
  {
    var s' := Next(base, s, step);
    forall id | id in s'.rows
      ensures NextAttemptInv(base, s'.rows[id], s'.now)
    {
      if id in s.rows {
        assert NextAttemptInv(base, s.rows[id], s.now);
        if step.Record? && s.holds[step.ticket].row == id {
          RowStepKeepsNextAttempt(base, s.rows[id], s.holds[step.ticket].result.error, s.now);
        }
      }
    }
  }

  lemma StepKeepsInv(base: int, s: State, step: Step)
    requires Inv(base, s) && Enabled(s, step)
    ensures Inv(base, Next(base, s, step))
  {
    var s' := Next(base, s, step);
    StepKeepsRows(base, s, step);
    if base >= 0 { StepKeepsNextAttempts(base, s, step); }
    StepKeepsHolds(base, s, step);
    forall id | id in s'.rows
      ensures Conserved(s', id)
    {
      StepConserves(base, s, step, id);
    }
    if step.FinishSend? || step.Lose? {
      assert HoldInv(s, step.ticket);
    }
  }

  lemma {:induction false} RunKeepsInv(base: int, tr: seq<State>, steps: seq<Step>, i: nat)
    requires IsRun(base, tr, steps) && i < |tr|
    ensures Inv(base, tr[i])
  {
    if i > 0 {
      RunKeepsInv(base, tr, steps, i - 1);
      StepKeepsInv(base, tr[i - 1], steps[i - 1]);
    }
  }

  // ----- what every run shows, with no assumption about time -----

  /** Locked exactly while processing; attempts stay under the limit until the row fails; and
      every finished send is a recorded failure, a sent mark, a lost result or one still in hand. */
  lemma EveryReachableRow(base: int, tr: seq<State>, steps: seq<Step>, i: nat, id: Id)
    requires IsRun(base, tr, steps) && i < |tr| && id in tr[i].rows
    ensures var r := tr[i].rows[id];
            && (r.lockedAt.Some? <==> r.status == Processing)
            && (r.maxAttempts >= 1 && (r.status == Pending || r.status == Processing) ==> r.attempts < r.maxAttempts)
            && (r.status == Failed ==> r.attempts >= r.maxAttempts)
            && (r.status == Sent ==> r.sentAt == Some(r.updatedAt) && r.lastError == None)
            && (r.status == Failed ==> r.lastError.Some? && |r.lastError.value| <= MAX_ERROR_LENGTH)
    ensures id in tr[i].log
    ensures tr[i].log[id].sends ==
            tr[i].rows[id].attempts + tr[i].log[id].sentMarks + tr[i].log[id].lost + |Unrecorded(tr[i], id)|
  {
    RunKeepsInv(base, tr, steps, i);
    assert RowInv(tr[i].rows[id], tr[i].now) && Conserved(tr[i], id);
  }

  ghost predicate MovesBack(tr: seq<State>, i: nat, j: nat, id: Id) {
    i <= j < |tr| && id in tr[i].rows && id in tr[j].rows
    && tr[j].rows[id].nextAttemptAt < tr[i].rows[id].nextAttemptAt
  }

  lemma StepNeverMovesBack(base: int, s: State, step: Step, id: Id)
    requires base >= 0 && Inv(base, s) && Enabled(s, step) && id in s.rows
    ensures id in Next(base, s, step).rows && s.rows[id].nextAttemptAt <= Next(base, s, step).rows[id].nextAttemptAt
  {
    if step.Record? && s.holds[step.ticket].row == id {
      assert NextAttemptInv(base, s.rows[id], s.now);
      RowStepKeepsNextAttempt(base, s.rows[id], s.holds[step.ticket].result.error, s.now);
    }
  }

  /** Between any two states of a run, rows stay and `next_attempt_at` does not go back. */
  lemma {:induction false} NeverMovesBack(base: int, tr: seq<State>, steps: seq<Step>, i: nat, j: nat, id: Id)
    requires base >= 0 && IsRun(base, tr, steps) && i <= j < |tr| && id in tr[i].rows
    ensures id in tr[j].rows && tr[i].rows[id].nextAttemptAt <= tr[j].rows[id].nextAttemptAt
    decreases j
  {
    if i < j {
      NeverMovesBack(base, tr, steps, i, j - 1, id);
      RunKeepsInv(base, tr, steps, j - 1);
      StepNeverMovesBack(base, tr[j - 1], steps[j - 1], id);
    }
  }

  const INITIAL: State := State(0, map[], map[], 0, map[])

  /** With a negative base delay the first failure puts the row back before its enqueue time. */
  lemma NegativeBaseMovesBack(base: int)
    requires base < 0
    ensures exists tr, steps, i: nat, j: nat, id :: IsRun(base, tr, steps) && MovesBack(tr, i, j, id)
  {
    var s0 := INITIAL;
    var s1 := Next(base, s0, Enqueue(0, 5));
    assert Claimable(s1, [0]);
    var s2 := Next(base, s1, Claim([0]));
    assert Issued(0, 1, 0) && s2.holds[0] == Hold(0, 0, Unsent);
    var s3 := Next(base, s2, FinishSend(0, Some("refused")));
    var s4 := Next(base, s3, Record(0));
    var steps := [Enqueue(0, 5), Claim([0]), FinishSend(0, Some("refused")), Record(0)];
    var tr := [s0, s1, s2, s3, s4];
    assert ComputeBackoffSeconds(base, 1) == base by {
      assert base * Pow2(0) == base;
    }
    assert IsRun(base, tr, steps) && MovesBack(tr, 3, 4, 0);
  }

  /** `next_attempt_at` never moves back in any run exactly when the configured base delay is
      not negative. */
  lemma NextAttemptIsMonotoneIff(base: int)
    ensures (forall tr, steps, i: nat, j: nat, id | IsRun(base, tr, steps) :: !MovesBack(tr, i, j, id)) <==> base >= 0
  {
    if base >= 0 {
      forall tr: seq<State>, steps, i: nat, j: nat, id | IsRun(base, tr, steps)
        ensures !MovesBack(tr, i, j, id)
      {
        if i <= j < |tr| && id in tr[i].rows {
          NeverMovesBack(base, tr, steps, i, j, id);
        }
      }
    } else {
      NegativeBaseMovesBack(base);
    }
  }

  ghost predicate SentUndone(tr: seq<State>, i: nat, id: Id) {
    i + 1 < |tr| && id in tr[i].rows && id in tr[i + 1].rows
    && tr[i].rows[id].status == Sent && tr[i + 1].rows[id].status == Pending
  }

  lemma ExtendRun(base: int, tr: seq<State>, steps: seq<Step>, step: Step)
    requires IsRun(base, tr, steps) && Enabled(tr[|steps|], step)
    ensures IsRun(base, tr + [Next(base, tr[|steps|], step)], steps + [step])
  {
  }

  /** A run in which a second worker has reclaimed a row that the first still has in hand. */
  lemma ReclaimedRun(base: int) returns (tr: seq<State>, steps: seq<Step>)
    ensures IsRun(base, tr, steps) && forall step | step in steps :: !step.Record?
    ensures var s := tr[|steps|];
            && s.rows.Keys == s.log.Keys == {0} && s.rows[0].attempts == 0 && s.rows[0].maxAttempts == 5
            && s.now == STALE_AFTER && s.holds == map[0 := Hold(0, 0, Unsent), 1 := Hold(0, STALE_AFTER, Unsent)]
  {
    var s0 := INITIAL;
    var s1 := Next(base, s0, Enqueue(0, 5));
    assert Claimable(s1, [0]);
    var s2 := Next(base, s1, Claim([0]));
    assert s2.holds == map[0 := Hold(0, 0, Unsent)] by { assert Issued(0, 1, 0); }
    var s3 := Next(base, s2, Tick(STALE_AFTER));
    assert Claimable(s3, [0]);
    var s4 := Next(base, s3, Claim([0]));
    assert s4.holds == s3.holds[1 := Hold(0, STALE_AFTER, Unsent)] by { assert Issued(1, 1, 1); }
    tr := [s0, s1, s2, s3, s4];
    steps := [Enqueue(0, 5), Claim([0]), Tick(STALE_AFTER), Claim([0])];
  }

  /** One more step of a run. */
  lemma Extended(base: int, tr: seq<State>, steps: seq<Step>, step: Step) returns (tr': seq<State>, steps': seq<Step>)
    requires IsRun(base, tr, steps) && Enabled(tr[|steps|], step)
    ensures tr' == tr + [Next(base, tr[|steps|], step)] && steps' == steps + [step] && IsRun(base, tr', steps')
  {
    ExtendRun(base, tr, steps, step);
    tr', steps' := tr + [Next(base, tr[|steps|], step)], steps + [step];
  }

  /** Why the exclusivity results assume timely records: a result recorded five minutes after
      its claim can turn a sent row back into a pending one, to be sent again. */
  lemma LateRecordUndoesSent(base: int)
    ensures exists tr, steps, i: nat, id :: IsRun(base, tr, steps) && SentUndone(tr, i, id)
  {
    var tr, steps := ReclaimedRun(base);
    tr, steps := Extended(base, tr, steps, FinishSend(0, Some("refused")));
    tr, steps := Extended(base, tr, steps, FinishSend(1, None));
    tr, steps := Extended(base, tr, steps, Record(1));
    tr, steps := Extended(base, tr, steps, Record(0));
    assert SentUndone(tr, |tr| - 2, 0);
  }
}
