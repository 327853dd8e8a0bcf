/** When workers earn the five-minute hypothesis: each works off its own batch one job after the
    other, and any number of other workers may step in between. */
module OutboxPace {
  import opened OutboxRows
  import opened OutboxProtocol
  import opened OutboxTimed

  /** The end of a send, or of a record, of the job under this ticket. */
  predicate Delivers(step: Step, ticket: Ticket) {
    (step.FinishSend? || step.Record?) && step.ticket == ticket
  }

  /** The ticket that job k of a claim in this state gets. */
  function JobTicket(s: State, k: nat): Ticket {
    s.nextTicket + k
  }

  predicate ClaimAt(steps: seq<Step>, c: nat) {
    c < |steps| && steps[c].Claim?
  }

  /** `ends[0]` is when the claim of step c is committed, and `ends[k + 1]` when job k is over: the jobs
      come in claim order, and each takes at most `d` from the end of the one before. */
  ghost predicate Schedule(tr: seq<State>, steps: seq<Step>, c: nat, ends: seq<Time>, claimTook: nat, d: nat)
    requires ClaimAt(steps, c) && |tr| == |steps| + 1
  {
    && |ends| == |steps[c].ids| + 1
    && ends[0] <= tr[c].now + claimTook
    && (forall j, k | 0 <= j && k == j + 1 < |ends| :: ends[k] <= ends[j] + d)
    && (forall i, k: nat | c < i < |steps| && k < |steps[c].ids| && Delivers(steps[i], JobTicket(tr[c], k)) ::
          tr[i].now <= ends[k + 1])
  }

  /** A worker that has claimed at step c takes at most `claimTook` to commit and `d` a job. */
  ghost predicate KeepsPace(tr: seq<State>, steps: seq<Step>, c: nat, claimTook: nat, d: nat)
    requires ClaimAt(steps, c) && |tr| == |steps| + 1
  {
    exists ends :: Schedule(tr, steps, c, ends, claimTook, d)
  }

  lemma {:induction false} TicketsGrow(base: int, tr: seq<State>, steps: seq<Step>, i: nat, j: nat)
    requires IsRun(base, tr, steps) && i <= j < |tr|
    ensures tr[i].nextTicket <= tr[j].nextTicket
    ensures i < j && steps[i].Claim? ==> tr[i].nextTicket + |steps[i].ids| <= tr[j].nextTicket
    decreases j
  {
    if i < j {
      TicketsGrow(base, tr, steps, i, j - 1);
      assert tr[j] == Next(base, tr[j - 1], steps[j - 1]);
    }
  }

  /** Job k of the claim at step c. */
  ghost predicate IssuedAt(tr: seq<State>, steps: seq<Step>, c: nat, k: nat, ticket: Ticket) {
    ClaimAt(steps, c) && c < |tr| && k < |steps[c].ids| && ticket == JobTicket(tr[c], k)
  }

  /** Every hold was issued by some claim, and keeps that claim's time. */
  lemma {:induction false} HoldComesFromAClaim(base: int, tr: seq<State>, steps: seq<Step>, i: nat, ticket: Ticket)
      returns (c: nat, k: nat)
    requires IsRun(base, tr, steps) && i < |tr| && ticket in tr[i].holds
    ensures c < i && IssuedAt(tr, steps, c, k, ticket) && tr[i].holds[ticket].claimedAt == tr[c].now
  {
    var s, step := tr[i - 1], steps[i - 1];
    assert tr[i] == Next(base, s, step);
    if step.Claim? && ticket in NewHolds(s.nextTicket, step.ids, s.now) {
      c, k := i - 1, ticket - s.nextTicket;
    } else {
      c, k := HoldComesFromAClaim(base, tr, steps, i - 1, ticket);
    }
  }

  lemma OneClaimATicket(base: int, tr: seq<State>, steps: seq<Step>, a: nat, j: nat, b: nat, k: nat, ticket: Ticket)
    requires IsRun(base, tr, steps) && IssuedAt(tr, steps, a, j, ticket) && IssuedAt(tr, steps, b, k, ticket)
    ensures a == b && j == k
  {
    if a < b {
      TicketsGrow(base, tr, steps, a, b);
    } else {
      TicketsGrow(base, tr, steps, b, a);
    }
  }

  lemma {:induction false} JobEndsInTime(tr: seq<State>, steps: seq<Step>, c: nat, ends: seq<Time>, claimTook: nat,
                                         d: nat, k: nat)
    requires ClaimAt(steps, c) && |tr| == |steps| + 1 && Schedule(tr, steps, c, ends, claimTook, d) && k < |ends|
    ensures ends[k] <= tr[c].now + claimTook + k * d
  {
    if k > 0 {
      JobEndsInTime(tr, steps, c, ends, claimTook, d, k - 1);
      assert ends[k] <= ends[k - 1] + d;
      assert k * d == (k - 1) * d + d;
    }
  }

  lemma Product(k: nat, n: nat, d: nat)
    requires k <= n
    ensures k * d <= n * d
  {}

  /** A batch meets the five-minute hypothesis, whatever other workers do meanwhile, whenever its
      commit and all its sends and records, at most `d` a job, fit in it. */
  lemma BatchMeetsTheDeadline(base: int, tr: seq<State>, steps: seq<Step>, c: nat, claimTook: nat, d: nat,
                              i: nat, k: nat)
    requires IsRun(base, tr, steps) && ClaimAt(steps, c) && KeepsPace(tr, steps, c, claimTook, d)
    requires claimTook + |steps[c].ids| * d < STALE_AFTER
    requires c < i < |steps| && k < |steps[c].ids| && Delivers(steps[i], JobTicket(tr[c], k))
    ensures Live(tr[i], steps[i].ticket) && Timely(tr[i], steps[i])
  {
    var ticket := JobTicket(tr[c], k);
    assert Enabled(tr[i], steps[i]);
    var b, j := HoldComesFromAClaim(base, tr, steps, i, ticket);
    OneClaimATicket(base, tr, steps, b, j, c, k, ticket);
    var ends :| Schedule(tr, steps, c, ends, claimTook, d);
    JobEndsInTime(tr, steps, c, ends, claimTook, d, k + 1);
    Product(k + 1, |steps[c].ids|, d);
    assert tr[i].now <= ends[k + 1];
  }

  /** Every worker of the run keeps the pace, with batches small enough for it. */
  ghost predicate AllKeepPace(tr: seq<State>, steps: seq<Step>, claimTook: nat, d: nat)
    requires |tr| == |steps| + 1
  {
    forall c: nat | ClaimAt(steps, c) ::
      KeepsPace(tr, steps, c, claimTook, d) && claimTook + |steps[c].ids| * d < STALE_AFTER
  }

  /** Any interleaving of workers that keep the pace is a timely run, and none of its sends is late. */
  lemma PacedWorkersAreTimely(base: int, tr: seq<State>, steps: seq<Step>, claimTook: nat, d: nat)
    requires IsRun(base, tr, steps) && AllKeepPace(tr, steps, claimTook, d)
    ensures IsTimelyRun(base, tr, steps)
    ensures forall i, id | 0 <= i < |steps| :: !IsLateSend(tr[i], steps[i], id)
  {
    forall i | 0 <= i < |steps| && (steps[i].FinishSend? || steps[i].Record?)
      ensures Live(tr[i], steps[i].ticket)
    {
      var ticket := steps[i].ticket;
      assert Enabled(tr[i], steps[i]);
      var c, k := HoldComesFromAClaim(base, tr, steps, i, ticket);
      BatchMeetsTheDeadline(base, tr, steps, c, claimTook, d, i, k);
    }
  }

  /** So among such workers a finished row is neither written nor sent again. */
  lemma PacedWorkersFinishOnce(base: int, tr: seq<State>, steps: seq<Step>, claimTook: nat, d: nat,
                               i: nat, j: nat, id: Id)
    requires IsRun(base, tr, steps) && AllKeepPace(tr, steps, claimTook, d) && i <= j < |tr|
    requires id in tr[i].rows && Terminal(tr[i].rows[id])
    ensures id in tr[j].rows && tr[j].rows[id] == tr[i].rows[id]
    ensures id in tr[i].log && id in tr[j].log && tr[j].log[id].sends == tr[i].log[id].sends
  {
    PacedWorkersAreTimely(base, tr, steps, claimTook, d);
    FinishedRowsAreFinal(base, tr, steps, i, j, id);
    NeverSentAgainIff(base, tr, steps, i, j, id);
  }
}
