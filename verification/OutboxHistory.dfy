/** Every column of an outbox row, and whether the row can be claimed, read off the history of the
    writes to it: no assumption about time is needed. */
module OutboxHistory {
  import opened Prelude
  import opened OutboxRows
  import opened OutboxQueue
  import opened OutboxProtocol

  /** One transaction that wrote the row, and what it was told. */
  datatype Write =
    | Enqueued(at: Time, maxAttempts: int)
    | Taken(at: Time)
    | Reported(at: Time, error: Option<string>)

  ghost function WriteOf(s: State, step: Step, id: Id): seq<Write> {
    match step
    case Enqueue(other, maxAttempts) => if other == id then [Enqueued(s.now, maxAttempts)] else []
    case Claim(ids) => if id in ids then [Taken(s.now)] else []
    case Record(ticket) =>
      if ticket in s.holds && s.holds[ticket].row == id && s.holds[ticket].result != Unsent
      then [Reported(s.now, s.holds[ticket].result.error)] else []
    case _ => []
  }

  /** The writes to the row in the first `i` steps of a run. */
  ghost function History(tr: seq<State>, steps: seq<Step>, id: Id, i: nat): seq<Write>
    requires i <= |steps| <= |tr|
  {
    if i == 0 then [] else History(tr, steps, id, i - 1) + WriteOf(tr[i - 1], steps[i - 1], id)
  }

  // ----- what a history says -----

  function Failures(h: seq<Write>): nat {
    if h == [] then 0
    else
      var last := h[|h| - 1];
      Failures(h[..|h| - 1]) + if last.Reported? && last.error.Some? then 1 else 0
  }

  function LastSuccess(h: seq<Write>): Option<Time> {
    if h == [] then None
    else
      var last := h[|h| - 1];
      if last.Reported? && last.error.None? then Some(last.at) else LastSuccess(h[..|h| - 1])
  }

  /** What the last recorded send was told, if it failed. */
  function LastComplaint(h: seq<Write>): Option<string> {
    if h == [] then None
    else
      var last := h[|h| - 1];
      if last.Reported? then last.error else LastComplaint(h[..|h| - 1])
  }

  /** Seconds doubled with each failure from `base` on, an hour at most, in microseconds. */
  function Pause(base: int, failures: nat): int {
    var doubled := base * Pow2(if failures == 0 then 0 else failures - 1);
    (if doubled < 3600 then doubled else 3600) * 1_000_000
  }

  /** When the row may be tried next: from its enqueue on, and after each failure that leaves it an
      attempt once the pause has passed. */
  function DueTime(base: int, maxAttempts: int, h: seq<Write>): Time {
    if h == [] then 0
    else
      var last, front := h[|h| - 1], h[..|h| - 1];
      if last.Enqueued? then last.at
      else if last.Reported? && last.error.Some? && Failures(h) < maxAttempts then last.at + Pause(base, Failures(h))
      else DueTime(base, maxAttempts, front)
  }

  function StatusAfter(maxAttempts: int, h: seq<Write>): Status
    requires h != []
  {
    match h[|h| - 1]
    case Enqueued(_, _) => Pending
    case Taken(_) => Processing
    case Reported(_, error) =>
      if error.None? then Sent else if Failures(h) >= maxAttempts then Failed else Pending
  }

  /** The first 2000 characters of the complaint. */
  predicate Quotes(lastError: Option<string>, complaint: Option<string>) {
    match (lastError, complaint)
    case (None, None) => true
    case (Some(text), Some(error)) => text <= error && |text| == if |error| < 2000 then |error| else 2000
    case _ => false
  }

  /** Every column of the row, by its history. */
  ghost predicate Tells(base: int, r: Row, h: seq<Write>) {
    && h != [] && h[0].Enqueued? && r.maxAttempts == h[0].maxAttempts
    && (forall k | 1 <= k < |h| :: !h[k].Enqueued?)
    && r.status == StatusAfter(r.maxAttempts, h)
    && r.attempts == Failures(h)
    && r.nextAttemptAt == DueTime(base, r.maxAttempts, h)
    && r.lockedAt == (if h[|h| - 1].Taken? then Some(h[|h| - 1].at) else None)
    && r.sentAt == LastSuccess(h)
    && Quotes(r.lastError, LastComplaint(h))
    && r.updatedAt == h[|h| - 1].at
  }

  lemma NewRowTells(base: int, maxAttempts: int, now: Time)
    ensures Tells(base, NewRow(maxAttempts, now), [Enqueued(now, maxAttempts)])
  {
    var h := [Enqueued(now, maxAttempts)];
    assert h[..|h| - 1] == [];
    assert LastComplaint([]) == None && LastSuccess([]) == None && Failures([]) == 0;
  }

  lemma TakenTells(base: int, r: Row, h: seq<Write>, now: Time)
    requires Tells(base, r, h)
    ensures Tells(base, Claimed(r, now), h + [Taken(now)])
  {
    assert (h + [Taken(now)])[..|h|] == h;
  }

  lemma ReportTells(base: int, r: Row, h: seq<Write>, error: Option<string>, now: Time)
    requires Tells(base, r, h)
    ensures Tells(base, Recorded(base, r, error, now), h + [Reported(now, error)])
  {
    assert (h + [Reported(now, error)])[..|h|] == h;
  }

  lemma NothingWritten(base: int, tr: seq<State>, steps: seq<Step>, id: Id, i: nat)
    requires IsRun(base, tr, steps) && i <= |steps| && id !in tr[i].rows
    ensures History(tr, steps, id, i) == []
  {
    if i > 0 {
      var s, step := tr[i - 1], steps[i - 1];
      assert tr[i] == Next(base, s, step);
      NothingWritten(base, tr, steps, id, i - 1);
    }
  }

  lemma StepTells(base: int, s: State, step: Step, id: Id, h: seq<Write>)
    requires Enabled(s, step) && id in Next(base, s, step).rows
    requires if id in s.rows then Tells(base, s.rows[id], h) else h == []
    ensures Tells(base, Next(base, s, step).rows[id], h + WriteOf(s, step, id))
  {
    if step.Enqueue? && step.id == id {
      NewRowTells(base, step.maxAttempts, s.now);
    } else if step.Claim? && id in step.ids {
      TakenTells(base, s.rows[id], h, s.now);
    } else if step.Record? && s.holds[step.ticket].row == id {
      ReportTells(base, s.rows[id], h, s.holds[step.ticket].result.error, s.now);
    } else {
      assert h + [] == h;
    }
  }

  /** In every reachable state every column of every row is what the writes so far make it: status,
      attempts, next attempt, lock, sent time, error and update time. */
  lemma {:induction false} RowTellsItsHistory(base: int, tr: seq<State>, steps: seq<Step>, id: Id, i: nat)
    requires IsRun(base, tr, steps) && i <= |steps| && id in tr[i].rows
    ensures Tells(base, tr[i].rows[id], History(tr, steps, id, i))
  {
    if i > 0 {
      var s, step := tr[i - 1], steps[i - 1];
      if id in s.rows {
        RowTellsItsHistory(base, tr, steps, id, i - 1);
      } else {
        NothingWritten(base, tr, steps, id, i - 1);
      }
      assert tr[i] == Next(base, s, step);
      StepTells(base, s, step, id, History(tr, steps, id, i - 1));
    }
  }

  // ----- who may be claimed -----

  /** The row was due when it was last taken, and no write is later than the clock. */
  ghost predicate InOrder(base: int, maxAttempts: int, h: seq<Write>, now: Time)
    requires h != []
  {
    h[|h| - 1].at <= now
    && (h[|h| - 1].Taken? ==> DueTime(base, maxAttempts, h) <= h[|h| - 1].at)
  }

  lemma StepKeepsOrder(base: int, s: State, step: Step, id: Id, h: seq<Write>)
    requires Enabled(s, step) && id in Next(base, s, step).rows
    requires if id in s.rows then Tells(base, s.rows[id], h) && InOrder(base, s.rows[id].maxAttempts, h, s.now)
             else h == []
    ensures var after := h + WriteOf(s, step, id);
            after != [] && InOrder(base, Next(base, s, step).rows[id].maxAttempts, after, Next(base, s, step).now)
  {
    StepTells(base, s, step, id, h);
    if step.Claim? && id in step.ids {
      assert (h + [Taken(s.now)])[..|h|] == h;
    } else if WriteOf(s, step, id) == [] {
      assert h + [] == h;
    }
  }

  lemma {:induction false} HistoryIsInOrder(base: int, tr: seq<State>, steps: seq<Step>, id: Id, i: nat)
    requires IsRun(base, tr, steps) && i <= |steps| && id in tr[i].rows
    ensures var h := History(tr, steps, id, i); h != [] && InOrder(base, tr[i].rows[id].maxAttempts, h, tr[i].now)
  {
    if i > 0 {
      var s, step := tr[i - 1], steps[i - 1];
      if id in s.rows {
        HistoryIsInOrder(base, tr, steps, id, i - 1);
        RowTellsItsHistory(base, tr, steps, id, i - 1);
      } else {
        NothingWritten(base, tr, steps, id, i - 1);
      }
      assert tr[i] == Next(base, s, step);
      StepKeepsOrder(base, s, step, id, History(tr, steps, id, i - 1));
    }
  }

  /** New rows at once; a failed send that leaves an attempt, after its pause; a row taken five
      minutes ago and not reported since; a row that is sent or out of attempts never. */
  predicate MayBeTaken(base: int, maxAttempts: int, h: seq<Write>, now: Time)
    requires h != []
  {
    match h[|h| - 1]
    case Enqueued(_, _) => true
    case Taken(at) => at + 300 * 1_000_000 <= now
    case Reported(at, error) => error.Some? && Failures(h) < maxAttempts && at + Pause(base, Failures(h)) <= now
  }

  /** The claim query finds a row exactly when nobody has it locked and its history says that it may
      be taken. */
  lemma FoundExactlyWhenItMayBeTaken(base: int, tr: seq<State>, steps: seq<Step>, id: Id, i: nat, locked: set<Id>)
    requires IsRun(base, tr, steps) && i <= |steps| && id in tr[i].rows
    ensures var r, h := tr[i].rows[id], History(tr, steps, id, i);
            h != []
            && (id in Eligible(tr[i].rows, tr[i].now, locked) <==>
                id !in locked && MayBeTaken(base, r.maxAttempts, h, tr[i].now))
  {
    RowTellsItsHistory(base, tr, steps, id, i);
    HistoryIsInOrder(base, tr, steps, id, i);
  }
}
