/** Draining: every recorded result uses up some of the attempts still open, so a queue without
    new rows is finished after a known number of results; and from every state it can be. */
module OutboxDrain {
  import opened Prelude
  import opened OutboxRows
  import opened OutboxQueue
  import opened OutboxProtocol
  import opened OutboxTimed
  import opened OutboxWorker

  /** The attempts a row has left. */
  function Open(r: Row): nat {
    if Terminal(r) || r.attempts >= AttemptLimit(r) then 0 else AttemptLimit(r) - r.attempts
  }

  /** The attempts left in the whole table. */
  ghost function Budget(t: Table): nat {
    if t == map[] then 0
    else
      var id :| id in t;
      Open(t[id]) + Budget(t - {id})
  }

  lemma {:induction false} BudgetSplit(t: Table, id: Id)
    requires id in t
    ensures Budget(t) == Open(t[id]) + Budget(t - {id})
    decreases |t|
  {
    var picked :| picked in t && Budget(t) == Open(t[picked]) + Budget(t - {picked});
    if picked != id {
      BudgetSplit(t - {picked}, id);
      BudgetSplit(t - {id}, picked);
      assert t - {picked} - {id} == t - {id} - {picked};
    }
  }

  lemma {:induction false} BudgetDependsOnOpen(t: Table, t': Table)
    requires t.Keys == t'.Keys && forall id | id in t :: Open(t[id]) == Open(t'[id])
    ensures Budget(t) == Budget(t')
    decreases |t|
  {
    if t == map[] {
      assert t' == map[];
    } else {
      var id :| id in t;
      BudgetSplit(t, id);
      BudgetSplit(t', id);
      BudgetDependsOnOpen(t - {id}, t' - {id});
    }
  }

  lemma BudgetAfterWrite(t: Table, id: Id, r: Row)
    requires id in t
    ensures Budget(t[id := r]) + Open(t[id]) == Budget(t) + Open(r)
  {
    BudgetSplit(t, id);
    BudgetSplit(t[id := r], id);
    assert t[id := r] - {id} == t - {id};
  }

  /** Nothing is open exactly when every row is finished. */
  lemma {:induction false} NothingOpenIffFinished(t: Table)
    requires forall id | id in t :: !Terminal(t[id]) ==> t[id].attempts < AttemptLimit(t[id])
    ensures Budget(t) == 0 <==> forall id | id in t :: Terminal(t[id])
    decreases |t|
  {
    if t != map[] {
      var id :| id in t;
      BudgetSplit(t, id);
      NothingOpenIffFinished(t - {id});
      assert forall other | other in t :: other == id || other in t - {id};
    }
  }

  lemma RecordSpends(base: int, t: Table, id: Id, error: Option<string>, now: Time)
    requires id in t && Open(t[id]) > 0
    ensures Budget(t[id := Recorded(base, t[id], error, now)]) < Budget(t)
  {
    BudgetAfterWrite(t, id, Recorded(base, t[id], error, now));
  }

  lemma StepSpendsBudget(base: int, s: State, step: Step)
    requires TimedInv(base, s) && Enabled(s, step) && Timely(s, step) && !step.Enqueue?
    ensures var s' := Next(base, s, step);
            if step.Record? then Budget(s'.rows) < Budget(s.rows) else Budget(s'.rows) == Budget(s.rows)
  {
    match step
    case Claim(ids) =>
      BudgetDependsOnOpen(s.rows, ClaimRows(s.rows, ids, s.now));
    case Record(ticket) =>
      var hold := s.holds[ticket];
      assert Owns(s, ticket) && LogInv(base, s.rows[hold.row], s.log[hold.row]);
      RecordSpends(base, s.rows, hold.row, hold.result.error, s.now);
    case _ =>
  }

  /** The results recorded by the steps i .. j - 1. */
  function Results(steps: seq<Step>, i: nat, j: nat): nat
    requires i <= j <= |steps|
    decreases j
  {
    if i == j then 0 else Results(steps, i, j - 1) + if steps[j - 1].Record? then 1 else 0
  }

  lemma {:induction false} ResultsSpendBudget(base: int, tr: seq<State>, steps: seq<Step>, i: nat, j: nat)
    requires IsTimelyRun(base, tr, steps) && i <= j <= |steps|
    requires forall k | i <= k < j :: !steps[k].Enqueue?
    ensures Budget(tr[j].rows) + Results(steps, i, j) <= Budget(tr[i].rows)
    decreases j
  {
    if i < j {
      ResultsSpendBudget(base, tr, steps, i, j - 1);
      RunKeepsTimedInv(base, tr, steps, j - 1);
      StepSpendsBudget(base, tr[j - 1], steps[j - 1]);
    }
  }

  /** Without new rows, at most `Budget` results are recorded, and once that many are, every row
      is sent or failed. */
  lemma DrainsWithinBudget(base: int, tr: seq<State>, steps: seq<Step>, i: nat, j: nat)
    requires IsTimelyRun(base, tr, steps) && i <= j <= |steps|
    requires forall k | i <= k < j :: !steps[k].Enqueue?
    ensures Results(steps, i, j) <= Budget(tr[i].rows)
    ensures Results(steps, i, j) == Budget(tr[i].rows) ==> forall id | id in tr[j].rows :: Terminal(tr[j].rows[id])
  {
    ResultsSpendBudget(base, tr, steps, i, j);
    RunKeepsTimedInv(base, tr, steps, j);
    assert forall id | id in tr[j].rows :: RowInv(tr[j].rows[id], tr[j].now);
    NothingOpenIffFinished(tr[j].rows);
  }

  // ----- draining whatever the sends return -----

  /** The outcomes of the sends among `steps`, in order. */
  function Outcomes(steps: seq<Step>): seq<Option<string>> {
    if steps == [] then []
    else (if steps[0].FinishSend? then [steps[0].error] else []) + Outcomes(steps[1..])
  }

  lemma {:induction false} OutcomesAppend(a: seq<Step>, b: seq<Step>)
    ensures Outcomes(a + b) == Outcomes(a) + Outcomes(b)
  {
    if a == [] {
      assert a + b == b;
    } else {
      var rest := a[1..];
      assert (a + b)[0] == a[0] && (a + b)[1..] == rest + b;
      OutcomesAppend(rest, b);
    }
  }

  predicate NoEnqueue(steps: seq<Step>) {
    forall step | step in steps :: !step.Enqueue?
  }

  predicate NoSend(steps: seq<Step>) {
    forall step | step in steps :: !step.FinishSend?
  }

  lemma {:induction false} NoSendNoOutcome(steps: seq<Step>)
    requires NoSend(steps)
    ensures Outcomes(steps) == []
  {
    if steps != [] {
      NoSendNoOutcome(steps[1..]);
    }
  }

  lemma OneSendOneOutcome(a: seq<Step>, ticket: Ticket, outcome: Option<string>, b: seq<Step>)
    requires NoSend(a) && NoSend(b)
    ensures Outcomes(a + [FinishSend(ticket, outcome)] + b) == [outcome]
  {
    var send := [FinishSend(ticket, outcome)];
    assert send[1..] == [] && Outcomes(send) == [outcome] + [];
    NoSendNoOutcome(a);
    NoSendNoOutcome(b);
    OutcomesAppend(a, send);
    OutcomesAppend(a + send, b);
  }

  lemma JobHasOneOutcome(start: Time, ticket: Ticket, e: Delivery)
    ensures Outcomes(JobSteps(start, ticket, e)) == [e.error] && NoEnqueue(JobSteps(start, ticket, e))
  {
    var job := JobSteps(start, ticket, e);
    var a, b := [job[0]], [job[2], job[3]];
    OneSendOneOutcome(a, ticket, e.error, b);
    assert job == a + [FinishSend(ticket, e.error)] + b;
  }

  lemma JoinedPath(base: int, s: State, a: seq<Step>, b: seq<Step>)
    requires AllEnabled(base, s, a) && AllTimely(base, s, a) && AllTimely(base, Exec(base, s, a), b)
    requires NoSend(a) && NoEnqueue(a) && NoEnqueue(b)
    ensures AllTimely(base, s, a + b) && Exec(base, s, a + b) == Exec(base, Exec(base, s, a), b)
    ensures NoEnqueue(a + b) && Outcomes(a + b) == Outcomes(b)
  {
    PathAppend(base, s, a, b);
    NoSendNoOutcome(a);
    OutcomesAppend(a, b);
  }

  /** Claim one row, send it at once and record the outcome. */
  lemma DeliverNow(base: int, s: State, id: Id, outcome: Option<string>) returns (steps: seq<Step>)
    requires s.log.Keys == s.rows.Keys && Claimable(s, [id])
    ensures AllTimely(base, s, steps) && NoEnqueue(steps) && Outcomes(steps) == [outcome]
    ensures id in s.rows && Exec(base, s, steps).rows ==
            ClaimRows(s.rows, [id], s.now)[id := Recorded(base, Claimed(s.rows[id], s.now), outcome, s.now)]
  {
    var claim := [Claim([id]), Tick(s.now + 0)];
    ClaimIsAPath(base, s, [id], 0);
    assert id in [id];
    var s' := Exec(base, s, claim);
    assert Holds(s', s.nextTicket + 0, [id][0], s.now);
    var job := SendAndRecord(base, s', s.nextTicket, id, outcome);
    JoinedPath(base, s, claim, job);
    steps := claim + job;
  }

  lemma SendAndRecord(base: int, s: State, ticket: Ticket, id: Id, outcome: Option<string>) returns (job: seq<Step>)
    requires Holds(s, ticket, id, s.now)
    ensures AllTimely(base, s, job) && NoEnqueue(job) && Outcomes(job) == [outcome]
    ensures Exec(base, s, job).rows == s.rows[id := Recorded(base, s.rows[id], outcome, s.now)]
  {
    var e := Delivery(0, outcome, 0, false);
    job := TimelyJob(base, s, ticket, id, e);
    assert Took(e) == 0;
  }

  lemma TimelyJob(base: int, s: State, ticket: Ticket, id: Id, e: Delivery) returns (job: seq<Step>)
    requires Holds(s, ticket, id, s.now) && Took(e) < STALE_AFTER
    ensures AllTimely(base, s, job) && NoEnqueue(job) && Outcomes(job) == [e.error]
    ensures Exec(base, s, job).rows == AfterJob(base, s.rows, id, e, s.now)
  {
    JobIsAPath(base, s, ticket, id, s.now, e);
    job := JobOf(s.now, ticket, e);
  }

  lemma JobOf(start: Time, ticket: Ticket, e: Delivery) returns (job: seq<Step>)
    ensures job == JobSteps(start, ticket, e) && Outcomes(job) == [e.error] && NoEnqueue(job)
  {
    JobHasOneOutcome(start, ticket, e);
    job := JobSteps(start, ticket, e);
  }

  lemma FinishSpendsBudget(base: int, t: Table, id: Id, outcome: Option<string>, now: Time)
    requires id in t && Open(t[id]) > 0
    ensures Budget(ClaimRows(t, [id], now)[id := Recorded(base, Claimed(t[id], now), outcome, now)]) < Budget(t)
  {
    var claimed := ClaimRows(t, [id], now);
    assert id in [id] && claimed[id] == Claimed(t[id], now);
    BudgetDependsOnOpen(t, claimed);
    RecordSpends(base, claimed, id, outcome, now);
  }

  lemma WaitFirst(base: int, s: State, to: Time, rest: seq<Step>)
    requires to >= s.now && AllTimely(base, s.(now := to), rest) && NoEnqueue(rest)
    ensures AllTimely(base, s, [Tick(to)] + rest) && NoEnqueue([Tick(to)] + rest)
    ensures Exec(base, s, [Tick(to)] + rest) == Exec(base, s.(now := to), rest)
    ensures Outcomes([Tick(to)] + rest) == Outcomes(rest)
  {
    assert ([Tick(to)] + rest)[1..] == rest;
  }

  lemma BecomesClaimable(s: State, id: Id, to: Time)
    requires id in s.rows && !Terminal(s.rows[id]) && RowInv(s.rows[id], s.now)
    requires to >= s.now + STALE_AFTER && to >= s.rows[id].nextAttemptAt
    ensures Claimable(s.(now := to), [id])
  {
  }

  /** From any reachable state an unfinished row can be claimed, sent and recorded in time, and
      whatever its send returns the budget falls. */
  lemma CanDeliverOne(base: int, s: State, id: Id, outcome: Option<string>) returns (steps: seq<Step>)
    requires Inv(base, s) && id in s.rows && !Terminal(s.rows[id])
    ensures AllTimely(base, s, steps) && NoEnqueue(steps) && Outcomes(steps) == [outcome]
    ensures Budget(Exec(base, s, steps).rows) < Budget(s.rows)
  {
    assert RowInv(s.rows[id], s.now);
    var next := s.rows[id].nextAttemptAt;
    var to := s.now + STALE_AFTER + if next > s.now then next - s.now else 0;
    BecomesClaimable(s, id, to);
    var rest := DeliverNow(base, s.(now := to), id, outcome);
    FinishSpendsBudget(base, s.rows, id, outcome, to);
    WaitFirst(base, s, to, rest);
    steps := [Tick(to)] + rest;
  }

  ghost predicate Finished(t: Table) {
    forall id | id in t :: Terminal(t[id])
  }

  lemma DeliversOneMore(base: int, tr: seq<State>, steps: seq<Step>, outcome: Option<string>)
      returns (tr': seq<State>, one: seq<Step>)
    requires IsTimelyRun(base, tr, steps) && !Finished(tr[|steps|].rows)
    ensures IsTimelyRun(base, tr', steps + one) && tr <= tr'
    ensures NoEnqueue(one) && Outcomes(one) == [outcome]
    ensures Budget(tr'[|steps + one|].rows) < Budget(tr[|steps|].rows)
  {
    var s := tr[|steps|];
    var id :| id in s.rows && !Terminal(s.rows[id]);
    RunKeepsInv(base, tr, steps, |steps|);
    one := CanDeliverOne(base, s, id, outcome);
    tr' := TimelyPathExtendsRun(base, tr, steps, one);
  }

  lemma UnfinishedHasBudget(base: int, tr: seq<State>, steps: seq<Step>)
    requires IsTimelyRun(base, tr, steps) && !Finished(tr[|steps|].rows)
    ensures Budget(tr[|steps|].rows) > 0
  {
    RunKeepsInv(base, tr, steps, |steps|);
    assert forall id | id in tr[|steps|].rows :: RowInv(tr[|steps|].rows[id], tr[|steps|].now);
    NothingOpenIffFinished(tr[|steps|].rows);
  }

  /** Draining never gets stuck: whatever the sends return, the first of the given outcomes to the
      first of them and so on, every timely run extends, without new rows, to one in which every row
      is sent or failed, and it takes no more sends than the budget. */
  lemma {:induction false} EveryRunCanDrain(base: int, tr: seq<State>, steps: seq<Step>, outcomes: seq<Option<string>>)
      returns (tr': seq<State>, more: seq<Step>)
    requires IsTimelyRun(base, tr, steps) && |outcomes| >= Budget(tr[|steps|].rows)
    ensures IsTimelyRun(base, tr', steps + more) && tr <= tr'
    ensures NoEnqueue(more) && Outcomes(more) <= outcomes && |Outcomes(more)| <= Budget(tr[|steps|].rows)
    ensures Finished(tr'[|steps + more|].rows)
    decreases Budget(tr[|steps|].rows)
  {
    if Finished(tr[|steps|].rows) {
      tr', more := tr, [];
      assert steps + more == steps;
    } else {
      UnfinishedHasBudget(base, tr, steps);
      var tr1, one := DeliversOneMore(base, tr, steps, outcomes[0]);
      var rest: seq<Step>;
      tr', rest := EveryRunCanDrain(base, tr1, steps + one, outcomes[1..]);
      more := one + rest;
      OutcomesAppend(one, rest);
      assert steps + more == steps + one + rest;
      assert outcomes == [outcomes[0]] + outcomes[1..];
    }
  }
}
