/** The worker: claim a batch, send each job with no lock held, record each result in its own
    transaction. The loop over the row objects is shown to be a path of the protocol. */
module OutboxWorker {
  import opened Prelude
  import opened OutboxRows
  import opened OutboxQueue
  import opened OutboxRepository
  import opened OutboxProtocol
  import opened OutboxTimed

  /** What the world does to one job: how long its send and its record transaction take, the
      error the send raises if any, and whether the record transaction fails. */
  datatype Delivery = Delivery(sendTook: nat, error: Option<string>, recordTook: nat, recordFails: bool)

  function Took(e: Delivery): nat {
    e.sendTook + e.recordTook
  }

  // ----- paths of protocol steps -----

  ghost function Exec(base: int, s: State, steps: seq<Step>): State
    decreases |steps|
  {
    if steps == [] || !Enabled(s, steps[0]) then s
    else Exec(base, Next(base, s, steps[0]), steps[1..])
  }

  ghost predicate AllEnabled(base: int, s: State, steps: seq<Step>)
    decreases |steps|
  {
    steps == [] || (Enabled(s, steps[0]) && AllEnabled(base, Next(base, s, steps[0]), steps[1..]))
  }

  ghost predicate AllTimely(base: int, s: State, steps: seq<Step>)
    decreases |steps|
  {
    steps == []
    || (Enabled(s, steps[0]) && Timely(s, steps[0]) && AllTimely(base, Next(base, s, steps[0]), steps[1..]))
  }

  lemma {:induction false} PathAppend(base: int, s: State, a: seq<Step>, b: seq<Step>)
    requires AllEnabled(base, s, a)
    ensures Exec(base, s, a + b) == Exec(base, Exec(base, s, a), b)
    ensures AllEnabled(base, s, a + b) <==> AllEnabled(base, Exec(base, s, a), b)
    ensures AllTimely(base, s, a + b) <==> AllTimely(base, s, a) && AllTimely(base, Exec(base, s, a), b)
    decreases |a|
  {
    if a == [] {
      assert a + b == b;
    } else {
      assert (a + b)[1..] == a[1..] + b;
      PathAppend(base, Next(base, s, a[0]), a[1..], b);
    }
  }

  /** A timely path continues a timely run. */
  lemma {:induction false} TimelyPathExtendsRun(base: int, tr: seq<State>, done: seq<Step>, steps: seq<Step>)
      returns (tr': seq<State>)
    requires IsTimelyRun(base, tr, done)
    requires AllTimely(base, tr[|done|], steps)
    ensures IsTimelyRun(base, tr', done + steps) && tr <= tr'
    ensures tr'[|done + steps|] == Exec(base, tr[|done|], steps)
    decreases |steps|
  {
    if steps == [] {
      tr' := tr;
      assert done + steps == done;
    } else {
      var s' := Next(base, tr[|done|], steps[0]);
      ExtendRun(base, tr, done, steps[0]);
      tr' := TimelyPathExtendsRun(base, tr + [s'], done + [steps[0]], steps[1..]);
      assert done + steps == done + [steps[0]] + steps[1..];
    }
  }

  // ----- one job -----

  /** Send, then record; a failing record transaction loses the result. */
  function JobSteps(start: Time, ticket: Ticket, e: Delivery): seq<Step> {
    [Tick(start + e.sendTook), FinishSend(ticket, e.error), Tick(start + Took(e)),
     if e.recordFails then Lose(ticket) else Record(ticket)]
  }

  /** The table after one job. */
  function AfterJob(base: int, t: Table, id: Id, e: Delivery, start: Time): Table
    requires id in t
  {
    if e.recordFails then t else t[id := Recorded(base, t[id], e.error, start + Took(e))]
  }

  ghost predicate Holds(s: State, ticket: Ticket, id: Id, claimedAt: Time) {
    ticket in s.holds && s.holds[ticket] == Hold(id, claimedAt, Unsent) && id in s.rows && id in s.log
  }

  lemma JobIsAPath(base: int, s: State, ticket: Ticket, id: Id, claimedAt: Time, e: Delivery)
    requires Holds(s, ticket, id, claimedAt)
    ensures var steps := JobSteps(s.now, ticket, e);
            && AllEnabled(base, s, steps)
            && (s.now + Took(e) < claimedAt + STALE_AFTER ==> AllTimely(base, s, steps))
    ensures var s' := Exec(base, s, JobSteps(s.now, ticket, e));
            && s'.now == s.now + e.sendTook + e.recordTook
            && s'.rows == AfterJob(base, s.rows, id, e, s.now)
            && s'.holds == s.holds - {ticket}
            && s'.log.Keys == s.log.Keys
  {
    var steps := JobSteps(s.now, ticket, e);
    var s1 := Next(base, s, steps[0]);
    var s2 := Next(base, s1, steps[1]);
    var s3 := Next(base, s2, steps[2]);
    var s4 := Next(base, s3, steps[3]);
    assert steps[1..] == [steps[1], steps[2], steps[3]];
    assert steps[1..][1..] == [steps[2], steps[3]];
    assert [steps[2], steps[3]][1..] == [steps[3]];
    assert [steps[3]][1..] == [];
    assert Exec(base, s3, [steps[3]]) == s4;
    assert Exec(base, s2, [steps[2], steps[3]]) == s4;
    assert AllEnabled(base, s2, [steps[2], steps[3]]);
    if s.now + Took(e) < claimedAt + STALE_AFTER {
      assert AllTimely(base, s3, [steps[3]]);
      assert AllTimely(base, s2, [steps[2], steps[3]]);
    }
  }

  // ----- one batch -----

  /** The jobs of a batch one after the other, from time `start`. */
  function DeliverySteps(start: Time, first: Ticket, es: seq<Delivery>): seq<Step>
    decreases |es|
  {
    if es == [] then []
    else JobSteps(start, first, es[0]) + DeliverySteps(start + Took(es[0]), first + 1, es[1..])
  }

  /** Claim, commit after `claimTook`, then deliver. */
  function BatchSteps(now: Time, ids: seq<Id>, claimTook: nat, first: Ticket, es: seq<Delivery>): seq<Step> {
    [Claim(ids), Tick(now + claimTook)] + DeliverySteps(now + claimTook, first, es)
  }

  ghost predicate HoldsAll(s: State, first: Ticket, ids: seq<Id>, claimedAt: Time) {
    forall k | 0 <= k < |ids| :: Holds(s, first + k, ids[k], claimedAt)
  }

  /** Delivering one job leaves the others in hand. */
  lemma JobKeepsTheRest(base: int, s: State, first: Ticket, ids: seq<Id>, claimedAt: Time, e: Delivery)
    requires ids != [] && HoldsAll(s, first, ids, claimedAt)
    ensures Holds(s, first, ids[0], claimedAt)
    ensures HoldsAll(Exec(base, s, JobSteps(s.now, first, e)), first + 1, ids[1..], claimedAt)
  {
    assert Holds(s, first + 0, ids[0], claimedAt);
    JobIsAPath(base, s, first, ids[0], claimedAt, e);
    var s' := Exec(base, s, JobSteps(s.now, first, e));
    forall k | 0 <= k < |ids[1..]|
      ensures Holds(s', first + 1 + k, ids[1..][k], claimedAt)
    {
      assert Holds(s, first + (k + 1), ids[k + 1], claimedAt);
    }
  }

  lemma {:induction false} DeliveriesArePaths(base: int, s: State, first: Ticket, ids: seq<Id>, claimedAt: Time,
                                              es: seq<Delivery>)
    requires |es| == |ids| && HoldsAll(s, first, ids, claimedAt)
    ensures AllEnabled(base, s, DeliverySteps(s.now, first, es))
    decreases |es|
  {
    if es != [] {
      var job := JobSteps(s.now, first, es[0]);
      JobKeepsTheRest(base, s, first, ids, claimedAt, es[0]);
      JobIsAPath(base, s, first, ids[0], claimedAt, es[0]);
      var s' := Exec(base, s, job);
      DeliveriesArePaths(base, s', first + 1, ids[1..], claimedAt, es[1..]);
      PathAppend(base, s, job, DeliverySteps(s'.now, first + 1, es[1..]));
    }
  }

  /** Every job takes at most `d`, and all of them together end before the deadline. */
  ghost predicate Fits(start: Time, es: seq<Delivery>, d: nat, deadline: Time) {
    (forall e | e in es :: Took(e) <= d) && start + |es| * d < deadline
  }

  lemma FitsAfterOne(start: Time, es: seq<Delivery>, d: nat, deadline: Time)
    requires es != [] && Fits(start, es, d, deadline)
    ensures start + Took(es[0]) < deadline && Fits(start + Took(es[0]), es[1..], d, deadline)
  {
    assert Took(es[0]) <= d;
    assert |es| * d == d + |es[1..]| * d && |es[1..]| * d >= 0;
  }

  lemma {:induction false} DeliveriesAreTimely(base: int, s: State, first: Ticket, ids: seq<Id>, claimedAt: Time,
                                               es: seq<Delivery>, d: nat)
    requires |es| == |ids| && HoldsAll(s, first, ids, claimedAt)
    requires Fits(s.now, es, d, claimedAt + STALE_AFTER)
    ensures AllTimely(base, s, DeliverySteps(s.now, first, es))
    decreases |es|
  {
    if es != [] {
      var job := JobSteps(s.now, first, es[0]);
      FitsAfterOne(s.now, es, d, claimedAt + STALE_AFTER);
      JobKeepsTheRest(base, s, first, ids, claimedAt, es[0]);
      JobIsAPath(base, s, first, ids[0], claimedAt, es[0]);
      var s' := Exec(base, s, job);
      DeliveriesAreTimely(base, s', first + 1, ids[1..], claimedAt, es[1..], d);
      PathAppend(base, s, job, DeliverySteps(s'.now, first + 1, es[1..]));
    }
  }

  /** The state right after a claim has been committed. */
  lemma ClaimIsAPath(base: int, s: State, ids: seq<Id>, claimTook: nat)
    requires s.log.Keys == s.rows.Keys && Claimable(s, ids)
    ensures var steps := [Claim(ids), Tick(s.now + claimTook)];
            AllEnabled(base, s, steps) && AllTimely(base, s, steps)
    ensures var s' := Exec(base, s, [Claim(ids), Tick(s.now + claimTook)]);
            && s'.now == s.now + claimTook
            && s'.rows == ClaimRows(s.rows, ids, s.now)
            && HoldsAll(s', s.nextTicket, ids, s.now)
  {
    var steps := [Claim(ids), Tick(s.now + claimTook)];
    var s1 := Next(base, s, steps[0]);
    assert steps[1..] == [steps[1]] && [steps[1]][1..] == [];
    var s2 := Next(base, s1, steps[1]);
    assert Exec(base, s1, [steps[1]]) == s2;
    forall k | 0 <= k < |ids|
      ensures Holds(s2, s.nextTicket + k, ids[k], s.now)
    {
      assert Issued(s.nextTicket, |ids|, s.nextTicket + k);
      assert ids[k] in ids;
    }
  }

  /** A batch that nothing interrupts is a path, and a timely one whenever the claim's commit and
      the sends and records of all its jobs, at most `d` each, fit in the five minutes. */
  lemma BatchIsATimelyPath(base: int, s: State, ids: seq<Id>, claimTook: nat, es: seq<Delivery>, d: nat)
    requires s.log.Keys == s.rows.Keys && Claimable(s, ids) && |es| == |ids|
    ensures AllEnabled(base, s, BatchSteps(s.now, ids, claimTook, s.nextTicket, es))
    ensures (forall e | e in es :: Took(e) <= d) && claimTook + |ids| * d < STALE_AFTER ==>
              AllTimely(base, s, BatchSteps(s.now, ids, claimTook, s.nextTicket, es))
  {
    var claim := [Claim(ids), Tick(s.now + claimTook)];
    ClaimIsAPath(base, s, ids, claimTook);
    var s' := Exec(base, s, claim);
    DeliveriesMayBeTimely(base, s', s.nextTicket, ids, s.now, es, d, claimTook);
    PathAppend(base, s, claim, DeliverySteps(s'.now, s.nextTicket, es));
  }

  lemma DeliveriesMayBeTimely(base: int, s: State, first: Ticket, ids: seq<Id>, claimedAt: Time,
                              es: seq<Delivery>, d: nat, claimTook: nat)
    requires |es| == |ids| && HoldsAll(s, first, ids, claimedAt) && s.now == claimedAt + claimTook
    ensures AllEnabled(base, s, DeliverySteps(s.now, first, es))
    ensures (forall e | e in es :: Took(e) <= d) && claimTook + |ids| * d < STALE_AFTER ==>
              AllTimely(base, s, DeliverySteps(s.now, first, es))
  {
    DeliveriesArePaths(base, s, first, ids, claimedAt, es);
    if (forall e | e in es :: Took(e) <= d) && claimTook + |ids| * d < STALE_AFTER {
      DeliveriesAreTimely(base, s, first, ids, claimedAt, es, d);
    }
  }

  // ----- the worker's own loop -----

  /** What a claim query selects is claimable. */
  lemma FirstDueIsClaimable(s: State, locked: set<Id>, limit: nat)
    ensures Claimable(s, FirstDue(s.rows, s.now, locked, limit))
  {
    FirstDueIsExactlyTheHead(s.rows, s.now, locked, limit);
    var ids := FirstDue(s.rows, s.now, locked, limit);
    forall i, j | 0 <= i < j < |ids|
      ensures ids[i] != ids[j]
    {
      assert Before(s.rows, ids[i], ids[j]);
    }
  }

  /** `_record`; a missing row is passed over, and a failing transaction leaves the table as it was. */
  method RecordResult(repo: Repository, base: int, id: Id, error: Option<string>, now: Time, fails: bool)
    requires repo.Valid()
    modifies repo.rows.Values
    ensures repo.Valid() && repo.rows == old(repo.rows)
    ensures repo.Table() ==
            if fails || id !in repo.rows then old(repo.Table())
            else old(repo.Table())[id := Recorded(base, old(repo.Table())[id], error, now)]
  {
    if fails {
      return;
    }
    var row := repo.GetForUpdate(id);
    if row != null {
      match error {
        case None => repo.MarkSent(row, now);
        case Some(e) => repo.RecordFailure(base, row, e, now);
      }
      assert forall other | other in repo.rows && other != id :: repo.rows[other].id != row.id;
    }
  }

  /** One turn of the worker's loop: the send, then the record of its result. */
  method DeliverJob(repo: Repository, base: int, row: EmailOutbox, e: Delivery, start: Time) returns (end: Time)
    requires repo.Valid() && row.id in repo.rows
    modifies repo.rows.Values
    ensures repo.Valid() && repo.rows == old(repo.rows)
    ensures end == start + Took(e)
    ensures repo.Table() == AfterJob(base, old(repo.Table()), row.id, e, start)
  {
    var error := e.error;
    end := start + e.sendTook;
    end := end + e.recordTook;
    RecordResult(repo, base, row.id, error, end, e.recordFails);
  }

  /** The jobs still to deliver, seen from the protocol. */
  ghost predicate Remaining(base: int, st: State, first: Ticket, ids: seq<Id>, claimedAt: Time,
                            es: seq<Delivery>, final: Table) {
    && |es| == |ids| && HoldsAll(st, first, ids, claimedAt)
    && Exec(base, st, DeliverySteps(st.now, first, es)).rows == final
  }

  lemma OneFewerRemaining(base: int, st: State, first: Ticket, ids: seq<Id>, claimedAt: Time,
                          es: seq<Delivery>, final: Table) returns (st': State)
    requires ids != [] && Remaining(base, st, first, ids, claimedAt, es, final)
    ensures ids[0] in st.rows && st'.now == st.now + Took(es[0])
    ensures st'.rows == AfterJob(base, st.rows, ids[0], es[0], st.now)
    ensures Remaining(base, st', first + 1, ids[1..], claimedAt, es[1..], final)
  {
    var job := JobSteps(st.now, first, es[0]);
    JobKeepsTheRest(base, st, first, ids, claimedAt, es[0]);
    JobIsAPath(base, st, first, ids[0], claimedAt, es[0]);
    st' := Exec(base, st, job);
    PathAppend(base, st, job, DeliverySteps(st'.now, first + 1, es[1..]));
  }

  /** The loop over the claimed jobs. */
  method DeliverAll(repo: Repository, base: int, jobs: seq<EmailOutbox>, es: seq<Delivery>, start: Time,
                    ghost s: State, ghost first: Ticket, ghost ids: seq<Id>, ghost claimedAt: Time, ghost final: Table)
    requires repo.Valid() && |jobs| == |ids|
    requires forall i | 0 <= i < |ids| :: jobs[i].id == ids[i]
    requires s.rows == repo.Table() && s.now == start
    requires Remaining(base, s, first, ids, claimedAt, es, final)
    modifies repo.rows.Values
    ensures repo.Valid() && repo.rows == old(repo.rows) && repo.Table() == final
  {
    var clock := start;
    ghost var st := s;
    var i := 0;
    while i < |jobs|
      invariant 0 <= i <= |jobs|
      invariant repo.Valid() && repo.rows == old(repo.rows)
      invariant st.rows == repo.Table() && st.now == clock
      invariant Remaining(base, st, first + i, ids[i..], claimedAt, es[i..], final)
    {
      ghost var st' := OneFewerRemaining(base, st, first + i, ids[i..], claimedAt, es[i..], final);
      assert ids[i..][1..] == ids[i + 1..] && es[i..][1..] == es[i + 1..];
      clock := DeliverJob(repo, base, jobs[i], es[i], clock);
      st := st';
      i := i + 1;
    }
  }

  /** After the claim the whole batch remains. */
  lemma BatchRemains(base: int, s: State, ids: seq<Id>, claimTook: nat, es: seq<Delivery>) returns (st: State)
    requires s.log.Keys == s.rows.Keys && Claimable(s, ids) && |es| == |ids|
    ensures st.rows == ClaimRows(s.rows, ids, s.now) && st.now == s.now + claimTook
    ensures Remaining(base, st, s.nextTicket, ids, s.now, es,
                      Exec(base, s, BatchSteps(s.now, ids, claimTook, s.nextTicket, es)).rows)
  {
    var claim := [Claim(ids), Tick(s.now + claimTook)];
    ClaimIsAPath(base, s, ids, claimTook);
    st := Exec(base, s, claim);
    PathAppend(base, s, claim, DeliverySteps(st.now, s.nextTicket, es));
  }

  /** `process_batch`: it leaves the table that the protocol reaches by one claim of the due rows
      and one send and record a job, in claim order, and returns the number of rows claimed. */
  method ProcessBatch(repo: Repository, base: int, limit: nat, now: Time, locked: set<Id>, claimTook: nat,
                      es: seq<Delivery>, ghost s: State) returns (claimed: nat, ghost ids: seq<Id>)
    requires repo.Valid() && |es| >= limit
    requires s.log.Keys == s.rows.Keys && s.rows == repo.Table() && s.now == now
    modifies repo.rows.Values
    ensures repo.Valid() && repo.rows == old(repo.rows)
    ensures ids == FirstDue(old(repo.Table()), now, locked, limit) && claimed == |ids| <= limit
    ensures repo.Table() == Exec(base, s, BatchSteps(now, ids, claimTook, s.nextTicket, es[..claimed])).rows
  {
    ids := FirstDue(repo.Table(), now, locked, limit);
    FirstDueIsClaimable(s, locked, limit);
    ghost var st := BatchRemains(base, s, ids, claimTook, es[..|ids|]);
    var jobs := repo.ClaimBatch(limit, now, locked);
    claimed := |jobs|;
    DeliverAll(repo, base, jobs, es[..claimed], now + claimTook, st, s.nextTicket, ids, now,
               Exec(base, s, BatchSteps(now, ids, claimTook, s.nextTicket, es[..claimed])).rows);
  }
}
