/** Bounded waiting: one worker, every result recorded, positive base delay, and enqueues stamped
    after the batch they follow. A due row is then claimed after at most as many batches as the
    rows ahead of it fill. */
module OutboxFairness {
  import opened Prelude
  import opened OutboxRows
  import opened OutboxQueue
  import opened OutboxProtocol
  import opened OutboxWorker

  // ----- the table after one batch -----

  /** The row's value once its job is over: recorded at some time `at` from the claim on, or left
      as claimed when the record transaction failed. */
  ghost predicate JobOutcome(base: int, claimed: Row, e: Delivery, after: Row, at: Time) {
    after == if e.recordFails then claimed else Recorded(base, claimed, e.error, at)
  }

  ghost predicate Ended(base: int, claimed: Row, e: Delivery, after: Row, from: Time) {
    exists at :: at >= from && JobOutcome(base, claimed, e, after, at)
  }

  ghost predicate DeliveredAs(base: int, t: Table, ids: seq<Id>, es: seq<Delivery>, t': Table, from: Time) {
    && |ids| == |es| && t'.Keys == t.Keys
    && (forall id | id in t && id !in ids :: t'[id] == t[id])
    && (forall k | 0 <= k < |ids| :: ids[k] in t && Ended(base, t[ids[k]], es[k], t'[ids[k]], from))
  }

  ghost predicate Distinct(ids: seq<Id>) {
    forall i, j | 0 <= i < j < |ids| :: ids[i] != ids[j]
  }

  lemma DeliveredOneMore(base: int, t: Table, t1: Table, t': Table, ids: seq<Id>, es: seq<Delivery>, from: Time)
    requires |es| == |ids| > 0 && Distinct(ids) && ids[0] in t && t1 == AfterJob(base, t, ids[0], es[0], from)
    requires DeliveredAs(base, t1, ids[1..], es[1..], t', from + Took(es[0]))
    ensures DeliveredAs(base, t, ids, es, t', from)
  {
    var later := from + Took(es[0]);
    forall k | 0 <= k < |ids|
      ensures ids[k] in t && Ended(base, t[ids[k]], es[k], t'[ids[k]], from)
    {
      if k == 0 {
        FirstStays(ids);
        assert JobOutcome(base, t[ids[0]], es[0], t'[ids[0]], later);
      } else {
        assert ids[1..][k - 1] == ids[k] && es[1..][k - 1] == es[k] && ids[k] != ids[0];
        assert Ended(base, t1[ids[k]], es[k], t'[ids[k]], later);
        var at :| at >= later && JobOutcome(base, t1[ids[k]], es[k], t'[ids[k]], at);
        assert at >= from && t1[ids[k]] == t[ids[k]];
      }
    }
    forall id | id in t && id !in ids
      ensures t'[id] == t[id]
    {
      assert id !in ids[1..] && id != ids[0];
    }
  }

  lemma FirstStays(ids: seq<Id>)
    requires ids != [] && Distinct(ids)
    ensures ids[0] !in ids[1..]
  {}

  lemma {:induction false} DeliveriesEffect(base: int, s: State, first: Ticket, ids: seq<Id>, claimedAt: Time,
                                            es: seq<Delivery>)
    requires |es| == |ids| && HoldsAll(s, first, ids, claimedAt) && Distinct(ids)
    ensures DeliveredAs(base, s.rows, ids, es, Exec(base, s, DeliverySteps(s.now, first, es)).rows, s.now)
    decreases |es|
  {
    if es != [] {
      var final := Exec(base, s, DeliverySteps(s.now, first, es)).rows;
      var s' := OneFewerRemaining(base, s, first, ids, claimedAt, es, final);
      var later, rest := ids[1..], es[1..];
      DeliveriesEffect(base, s', first + 1, later, claimedAt, rest);
      DeliveredOneMore(base, s.rows, s'.rows, final, ids, es, s.now);
    }
  }

  lemma BatchEffect(base: int, s: State, ids: seq<Id>, claimTook: nat, es: seq<Delivery>)
    requires s.log.Keys == s.rows.Keys && Claimable(s, ids) && |es| == |ids|
    ensures DeliveredAs(base, ClaimRows(s.rows, ids, s.now), ids, es,
                        Exec(base, s, BatchSteps(s.now, ids, claimTook, s.nextTicket, es)).rows, s.now + claimTook)
  {
    var claim := [Claim(ids), Tick(s.now + claimTook)];
    ClaimIsAPath(base, s, ids, claimTook);
    var st := Exec(base, s, claim);
    DeliveriesEffect(base, st, s.nextTicket, ids, s.now, es);
    PathAppend(base, s, claim, DeliverySteps(st.now, s.nextTicket, es));
  }

  // ----- rounds -----

  /** One batch, from the table it meets to the table it leaves. */
  datatype Round = Round(before: Table, now: Time, after: Table)

  /** Nobody else holds a lock, and every result is recorded. */
  ghost predicate IsRound(base: int, limit: nat, r: Round) {
    var ids := FirstDue(r.before, r.now, {}, limit);
    && r.after.Keys == r.before.Keys
    && (forall id | id in r.before && id !in ids :: r.after[id] == r.before[id])
    && (forall id | id in ids :: exists error, at ::
          at >= r.now && r.after[id] == Recorded(base, Claimed(r.before[id], r.now), error, at))
  }

  /** What `process_batch` does is a round when no record transaction fails. */
  lemma BatchIsARound(base: int, s: State, limit: nat, claimTook: nat, es: seq<Delivery>)
    requires s.log.Keys == s.rows.Keys && |es| == |FirstDue(s.rows, s.now, {}, limit)|
    requires forall e | e in es :: !e.recordFails
    ensures var ids := FirstDue(s.rows, s.now, {}, limit);
            IsRound(base, limit,
                    Round(s.rows, s.now, Exec(base, s, BatchSteps(s.now, ids, claimTook, s.nextTicket, es)).rows))
  {
    var ids := FirstDue(s.rows, s.now, {}, limit);
    FirstDueIsClaimable(s, {}, limit);
    BatchEffect(base, s, ids, claimTook, es);
    var after := Exec(base, s, BatchSteps(s.now, ids, claimTook, s.nextTicket, es)).rows;
    var claimed := ClaimRows(s.rows, ids, s.now);
    forall id | id in ids
      ensures exists error, at ::
                at >= s.now && after[id] == Recorded(base, Claimed(s.rows[id], s.now), error, at)
    {
      var k :| 0 <= k < |ids| && ids[k] == id;
      var at :| at >= s.now + claimTook && JobOutcome(base, claimed[ids[k]], es[k], after[ids[k]], at);
      assert es[k] in es;
      assert after[id] == Recorded(base, Claimed(s.rows[id], s.now), es[k].error, at);
    }
  }

  /** Between two batches rows are only added, pending and stamped after the first batch's claim. */
  ghost predicate Follows(r: Round, next: Round) {
    && r.now <= next.now
    && (forall id | id in r.after :: id in next.before && next.before[id] == r.after[id])
    && (forall id | id in next.before && id !in r.after ::
          next.before[id].status == Pending && next.before[id].nextAttemptAt > r.now)
  }

  ghost predicate IsSchedule(base: int, limit: nat, rounds: seq<Round>) {
    && (forall i | 0 <= i < |rounds| :: IsRound(base, limit, rounds[i]))
    && (forall i, j | 0 <= i < j < |rounds| && j == i + 1 :: Follows(rounds[i], rounds[j]))
  }

  ghost predicate NothingStuck(t: Table) {
    forall id | id in t :: t[id].status != Processing
  }

  ghost predicate Waiting(r: Round, id: Id) {
    id in r.before && r.before[id].status == Pending && r.before[id].nextAttemptAt <= r.now
  }

  /** The eligible rows that a claim takes before `id`. */
  ghost function Ahead(r: Round, id: Id): set<Id>
    requires id in r.before
  {
    set x | x in Eligible(r.before, r.now, {}) && Before(r.before, x, id)
  }

  ghost predicate ClaimedIn(limit: nat, r: Round, id: Id) {
    id in FirstDue(r.before, r.now, {}, limit)
  }

  lemma {:induction false} DistinctCount(ids: seq<Id>, all: set<Id>)
    requires Distinct(ids) && forall id :: id in ids <==> id in all
    ensures |all| == |ids|
  {
    if ids == [] {
      assert all == {};
    } else {
      assert ids[0] !in ids[1..];
      assert forall id :: id in ids[1..] <==> id in ids && id != ids[0];
      DistinctCount(ids[1..], all - {ids[0]});
    }
  }

  /** A claimed row that is not finished comes back later than every row that was already due. */
  lemma RetryReentersBehind(base: int, r: Row, error: Option<string>, now: Time, at: Time)
    requires base >= 1 && at >= now
    ensures var after := Recorded(base, Claimed(r, now), error, at);
            after.status != Processing && (after.status == Pending ==> after.nextAttemptAt > now)
  {
    BackoffAtLeastBase(base, r.attempts + 1);
  }

  lemma AfterRound(base: int, limit: nat, r: Round, id: Id)
    requires base >= 1 && IsRound(base, limit, r) && NothingStuck(r.before) && id in r.before
    ensures r.after[id].status != Processing
    ensures ClaimedIn(limit, r, id) && r.after[id].status == Pending ==> r.after[id].nextAttemptAt > r.now
  {
    if ClaimedIn(limit, r, id) {
      var error, at :| at >= r.now && r.after[id] == Recorded(base, Claimed(r.before[id], r.now), error, at);
      RetryReentersBehind(base, r.before[id], error, r.now, at);
    }
  }

  /** Nobody overtakes: whoever is ahead in the next round was ahead before and was not claimed. */
  lemma AheadShrinks(base: int, limit: nat, r: Round, next: Round, id: Id)
    requires base >= 1 && IsRound(base, limit, r) && Follows(r, next) && NothingStuck(r.before)
    requires Waiting(r, id) && !ClaimedIn(limit, r, id)
    ensures Waiting(next, id) && NothingStuck(next.before)
    ensures forall x | x in Ahead(next, id) :: x in Ahead(r, id) && !ClaimedIn(limit, r, x)
  {
    StillNothingStuck(base, limit, r, next);
    forall x | x in Ahead(next, id)
      ensures x in Ahead(r, id) && !ClaimedIn(limit, r, x)
    {
      WasAhead(base, limit, r, next, id, x);
    }
  }

  lemma StillNothingStuck(base: int, limit: nat, r: Round, next: Round)
    requires base >= 1 && IsRound(base, limit, r) && Follows(r, next) && NothingStuck(r.before)
    ensures NothingStuck(next.before)
  {
    forall x | x in next.before
      ensures next.before[x].status != Processing
    {
      if x in r.before { AfterRound(base, limit, r, x); }
    }
  }

  lemma WasAhead(base: int, limit: nat, r: Round, next: Round, id: Id, x: Id)
    requires base >= 1 && IsRound(base, limit, r) && Follows(r, next) && NothingStuck(r.before)
    requires Waiting(r, id) && !ClaimedIn(limit, r, id) && id in next.before && x in Ahead(next, id)
    ensures x in Ahead(r, id) && !ClaimedIn(limit, r, x)
  {
    assert next.before[id] == r.after[id] == r.before[id];
    StillNothingStuck(base, limit, r, next);
    if x in r.before { AfterRound(base, limit, r, x); }
  }

  /** A waiting row is passed over only for a full batch of rows ahead of it. */
  lemma PassedOver(limit: nat, r: Round, id: Id) returns (claimed: set<Id>)
    requires Waiting(r, id) && !ClaimedIn(limit, r, id)
    ensures claimed <= Ahead(r, id) && |claimed| == limit
    ensures forall x | x in claimed :: ClaimedIn(limit, r, x)
  {
    FirstDueIsExactlyTheHead(r.before, r.now, {}, limit);
    var ids := FirstDue(r.before, r.now, {}, limit);
    claimed := set x | x in Ahead(r, id) && x in ids;
    assert id in Eligible(r.before, r.now, {});
    assert forall x | x in ids :: x in Ahead(r, id);
    assert Distinct(ids) by {
      assert forall i, j | 0 <= i < j < |ids| :: Before(r.before, ids[i], ids[j]);
    }
    DistinctCount(ids, claimed);
  }

  lemma AheadCounts(base: int, limit: nat, r: Round, next: Round, id: Id)
    requires base >= 1 && IsRound(base, limit, r) && Follows(r, next) && NothingStuck(r.before)
    requires Waiting(r, id) && !ClaimedIn(limit, r, id)
    ensures Waiting(next, id) && NothingStuck(next.before)
    ensures |Ahead(next, id)| + limit <= |Ahead(r, id)|
  {
    AheadShrinks(base, limit, r, next, id);
    var claimed := PassedOver(limit, r, id);
    assert Ahead(next, id) !! claimed;
    SubsetIsSmaller(Ahead(next, id) + claimed, Ahead(r, id));
  }

  /** The rows that `n` full batches claim. */
  function Capacity(n: nat, limit: nat): nat {
    if n == 0 then 0 else limit + Capacity(n - 1, limit)
  }

  lemma {:induction false} CapacityIsAProduct(n: nat, limit: nat)
    ensures Capacity(n, limit) == n * limit
  {
    if n > 0 {
      CapacityIsAProduct(n - 1, limit);
      assert n * limit == (n - 1) * limit + limit;
    }
  }

  lemma BatchesNeeded(k: nat, limit: nat)
    requires limit >= 1
    ensures k / limit >= 0 && k < Capacity(k / limit + 1, limit)
  {
    CapacityIsAProduct(k / limit + 1, limit);
    assert k == limit * (k / limit) + k % limit;
    assert (k / limit + 1) * limit == limit * (k / limit) + limit;
  }

  /** What one round means for the row: whether it waits, is claimed, and behind how many. */
  datatype Turn = Turn(waiting: bool, claimed: bool, ahead: nat)

  ghost function TurnOf(limit: nat, r: Round, id: Id): Turn {
    if NothingStuck(r.before) && Waiting(r, id) then Turn(true, ClaimedIn(limit, r, id), |Ahead(r, id)|)
    else Turn(false, false, 0)
  }

  ghost predicate Advances(limit: nat, turns: seq<Turn>) {
    forall i | 0 <= i < |turns| && turns[i].waiting && !turns[i].claimed ::
      && turns[i].ahead >= limit
      && forall j | j == i + 1 && j < |turns| :: turns[j].waiting && turns[j].ahead + limit <= turns[i].ahead
  }

  lemma FullBatchAhead(limit: nat, r: Round, id: Id)
    requires TurnOf(limit, r, id).waiting && !TurnOf(limit, r, id).claimed
    ensures TurnOf(limit, r, id).ahead >= limit
  {
    var claimed := PassedOver(limit, r, id);
    SubsetIsSmaller(claimed, Ahead(r, id));
  }

  lemma TurnAdvances(base: int, limit: nat, r: Round, next: Round, id: Id)
    requires base >= 1 && IsRound(base, limit, r) && Follows(r, next)
    requires TurnOf(limit, r, id).waiting && !TurnOf(limit, r, id).claimed
    ensures TurnOf(limit, next, id).waiting
    ensures TurnOf(limit, next, id).ahead + limit <= TurnOf(limit, r, id).ahead
  {
    AheadCounts(base, limit, r, next, id);
  }

  lemma ScheduleAdvances(base: int, limit: nat, rounds: seq<Round>, id: Id)
    requires base >= 1 && IsSchedule(base, limit, rounds)
    ensures Advances(limit, seq(|rounds|, i requires 0 <= i < |rounds| => TurnOf(limit, rounds[i], id)))
  {
    forall i | 0 <= i < |rounds| && TurnOf(limit, rounds[i], id).waiting && !TurnOf(limit, rounds[i], id).claimed
      ensures TurnOf(limit, rounds[i], id).ahead >= limit
    {
      FullBatchAhead(limit, rounds[i], id);
    }
    forall i, j | 0 <= i < j < |rounds| && j == i + 1
                  && TurnOf(limit, rounds[i], id).waiting && !TurnOf(limit, rounds[i], id).claimed
      ensures TurnOf(limit, rounds[j], id).waiting
      ensures TurnOf(limit, rounds[j], id).ahead + limit <= TurnOf(limit, rounds[i], id).ahead
    {
      TurnAdvances(base, limit, rounds[i], rounds[j], id);
    }
  }

  /** From turn `i` on, `n` batches reach a row with fewer rows ahead of it than they claim. */
  lemma {:induction false} ClaimedWithin(limit: nat, turns: seq<Turn>, i: nat, n: nat) returns (j: nat)
    requires Advances(limit, turns) && i < |turns| && i + n <= |turns|
    requires turns[i].waiting && turns[i].ahead < Capacity(n, limit)
    ensures i <= j < i + n && turns[j].claimed
    decreases n
  {
    if turns[i].claimed {
      j := i;
    } else {
      j := ClaimedWithin(limit, turns, i + 1, n - 1);
    }
  }

  /** A due row with k eligible rows ahead of it is claimed within k / limit + 1 batches. */
  lemma BoundedWaiting(base: int, limit: nat, rounds: seq<Round>, id: Id)
    requires base >= 1 && limit >= 1 && IsSchedule(base, limit, rounds)
    requires rounds != [] && NothingStuck(rounds[0].before) && Waiting(rounds[0], id)
    requires |rounds| > |Ahead(rounds[0], id)| / limit
    ensures exists j :: 0 <= j <= |Ahead(rounds[0], id)| / limit && ClaimedIn(limit, rounds[j], id)
  {
    var k := |Ahead(rounds[0], id)|;
    BatchesNeeded(k, limit);
    ScheduleAdvances(base, limit, rounds, id);
    var turns := seq(|rounds|, i requires 0 <= i < |rounds| => TurnOf(limit, rounds[i], id));
    var j := ClaimedWithin(limit, turns, 0, k / limit + 1);
    assert ClaimedIn(limit, rounds[j], id);
  }
}
