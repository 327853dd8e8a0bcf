/** Concurrent logins against the limiter. The check and the record are separate critical
    sections, so logins already past the check can push a key over its limit: by how much, exactly. */
module LoginAttempts {
  import opened RateLimiter

  datatype State = State(ops: seq<Op>, now: Time, inFlight: map<string, nat>)

  /** A login checks the limiter, verifies the credentials, and then records a failure, resets the
      key on success, or does neither when it ends with any other error. */
  datatype Step =
    | Check(key: string)
    | Fail(key: string)
    | Succeed(key: string)
    | Abandon(key: string)
    | Wait(to: Time)

  function InFlight(s: State, key: string): nat {
    if key in s.inFlight then s.inFlight[key] else 0
  }

  function WithInFlight(s: State, key: string, n: nat): State {
    s.(inFlight := s.inFlight[key := n])
  }

  ghost predicate Enabled(s: State, step: Step) {
    match step
    case Check(_) => true
    case Wait(to) => to >= s.now
    case _ => InFlight(s, step.key) > 0
  }

  ghost function Next(window: Time, maxAttempts: int, s: State, step: Step): State
    requires Enabled(s, step)
  {
    match step
    case Check(key) =>
      var s' := s.(ops := s.ops + [IsLimited(key, s.now)]);
      if Limited(window, maxAttempts, s.ops, key, s.now) then s' else WithInFlight(s', key, InFlight(s, key) + 1)
    case Fail(key) => WithInFlight(s.(ops := s.ops + [Record(key, s.now)]), key, InFlight(s, key) - 1)
    case Succeed(key) => WithInFlight(s.(ops := s.ops + [Reset(key, s.now)]), key, InFlight(s, key) - 1)
    case Abandon(key) => WithInFlight(s, key, InFlight(s, key) - 1)
    case Wait(to) => s.(now := to)
  }

  /** A run from an unused limiter with never more than `k` logins past the check on `key`. */
  ghost predicate IsRun(window: Time, maxAttempts: int, tr: seq<State>, steps: seq<Step>, key: string, k: nat) {
    && |tr| == |steps| + 1
    && tr[0].ops == [] && tr[0].inFlight == map[]
    && (forall i {:trigger steps[i]} | 0 <= i < |steps| ::
          Enabled(tr[i], steps[i]) && tr[i + 1] == Next(window, maxAttempts, tr[i], steps[i]))
    && (forall i | 0 <= i < |tr| :: InFlight(tr[i], key) <= k)
  }

  /** Failures recorded since the last reset, in the window that ends at `t`. */
  function Failures(s: State, key: string, window: Time, t: Time): nat {
    CountIn(History(s.ops, key), t - window, t)
  }

  lemma {:induction false} LaterWindowsHoldFewer(history: seq<Time>, window: Time, now: Time, t: Time)
    requires Past(history, now) && now <= t
    ensures CountIn(history, t - window, t) <= CountIn(history, now - window, now)
  {
    if history != [] {
      LaterWindowsHoldFewer(history[..|history| - 1], window, now, t);
    }
  }

  lemma OneMoreCall(ops: seq<Op>, op: Op, key: string)
    ensures History(ops + [op], key) == Extended(History(ops, key), op, key)
    ensures forall now :: Chronological(ops + [op], now) <==> op.at <= now && Chronological(ops, op.at)
  {
    assert (ops + [op])[..|ops|] == ops;
  }

  lemma OneMoreHit(history: seq<Time>, hit: Time, lo: Time, hi: Time)
    ensures CountIn(history + [hit], lo, hi) == CountIn(history, lo, hi) + if lo < hit <= hi then 1 else 0
  {
    assert (history + [hit])[..|history|] == history;
  }

  /** Hits in the window ending now, plus logins that may still add one, stay under the bound; and
      no window anywhere holds more hits than the bound. */
  ghost predicate Bounded(window: Time, bound: int, s: State, key: string) {
    && Chronological(s.ops, s.now)
    && Failures(s, key, window, s.now) + InFlight(s, key) <= bound
    && forall t :: Failures(s, key, window, t) <= bound
  }

  /** What each step does to the failures counted for every key, and who is let past the check: exactly
      the logins that find fewer than max_attempts failures in the window. */
  lemma StepsAreExact(window: Time, maxAttempts: int, s: State, step: Step, key: string)
    requires Enabled(s, step) && Chronological(s.ops, s.now)
    ensures var s', history := Next(window, maxAttempts, s, step), History(s.ops, key);
            && History(s'.ops, key) == (if step == Fail(key) then history + [s.now]
                                        else if step == Succeed(key) then [] else history)
            && InFlight(s', key) ==
               InFlight(s, key)
               + (if step == Check(key) && CountIn(history, s.now - window, s.now) < maxAttempts then 1
                  else if step in {Fail(key), Succeed(key), Abandon(key)} then -1 else 0)
            && s'.now == if step.Wait? then step.to else s.now
  {
    match step
    case Check(other) =>
      OneMoreCall(s.ops, IsLimited(other, s.now), key);
      CheckAdmitsBelowTheLimit(window, maxAttempts, s, other);
    case Fail(other) => OneMoreCall(s.ops, Record(other, s.now), key);
    case Succeed(other) => OneMoreCall(s.ops, Reset(other, s.now), key);
    case _ =>
  }

  lemma CheckAdmitsBelowTheLimit(window: Time, maxAttempts: int, s: State, key: string)
    requires Chronological(s.ops, s.now)
    ensures Limited(window, maxAttempts, s.ops, key, s.now) <==>
            CountIn(History(s.ops, key), s.now - window, s.now) >= maxAttempts
  {
    LimiterRefinesNaiveCount(window, maxAttempts, s.ops, key, s.now);
  }

  lemma FailKeepsBounded(window: Time, maxAttempts: int, bound: int, s: State, key: string, other: string)
    requires Bounded(window, bound, s, key) && Enabled(s, Fail(other))
    ensures Bounded(window, bound, Next(window, maxAttempts, s, Fail(other)), key)
  {
    var s' := Next(window, maxAttempts, s, Fail(other));
    var history := History(s.ops, key);
    OneMoreCall(s.ops, Record(other, s.now), key);
    if other == key {
      HistoryIsPast(s.ops, key, s.now);
      forall t
        ensures Failures(s', key, window, t) <= bound
      {
        OneMoreHit(history, s.now, t - window, t);
        assert Failures(s, key, window, t) <= bound;
        if t >= s.now { LaterWindowsHoldFewer(history, window, s.now, t); }
      }
      OneMoreHit(history, s.now, s.now - window, s.now);
    } else {
      assert forall t :: Failures(s', key, window, t) == Failures(s, key, window, t);
    }
  }

  lemma CheckKeepsBounded(window: Time, maxAttempts: int, k: nat, s: State, key: string, other: string)
    requires maxAttempts >= 1 && Bounded(window, maxAttempts - 1 + k, s, key)
    requires InFlight(Next(window, maxAttempts, s, Check(other)), key) <= k
    ensures Bounded(window, maxAttempts - 1 + k, Next(window, maxAttempts, s, Check(other)), key)
  {
    var s' := Next(window, maxAttempts, s, Check(other));
    OneMoreCall(s.ops, IsLimited(other, s.now), key);
    LimiterRefinesNaiveCount(window, maxAttempts, s.ops, other, s.now);
    assert forall t :: Failures(s', key, window, t) == Failures(s, key, window, t);
  }

  lemma StepKeepsBounded(window: Time, maxAttempts: int, k: nat, s: State, step: Step, key: string)
    requires maxAttempts >= 1 && Bounded(window, maxAttempts - 1 + k, s, key) && Enabled(s, step)
    requires InFlight(Next(window, maxAttempts, s, step), key) <= k
    ensures Bounded(window, maxAttempts - 1 + k, Next(window, maxAttempts, s, step), key)
  {
    var s' := Next(window, maxAttempts, s, step);
    match step
    case Check(other) => CheckKeepsBounded(window, maxAttempts, k, s, key, other);
    case Fail(other) => FailKeepsBounded(window, maxAttempts, maxAttempts - 1 + k, s, key, other);
    case Succeed(other) =>
      OneMoreCall(s.ops, Reset(other, s.now), key);
      if other != key {
        assert forall t :: Failures(s', key, window, t) == Failures(s, key, window, t);
      }
    case Abandon(other) =>
      assert forall t :: Failures(s', key, window, t) == Failures(s, key, window, t);
    case Wait(to) =>
      HistoryIsPast(s.ops, key, s.now);
      LaterWindowsHoldFewer(History(s.ops, key), window, s.now, to);
      assert forall t :: Failures(s', key, window, t) == Failures(s, key, window, t);
  }

  lemma {:induction false} RunIsBounded(window: Time, maxAttempts: int, tr: seq<State>, steps: seq<Step>,
                                        key: string, k: nat, i: nat)
    requires maxAttempts >= 1 && IsRun(window, maxAttempts, tr, steps, key, k) && i < |tr|
    ensures Bounded(window, maxAttempts - 1 + k, tr[i], key)
  {
    if i > 0 {
      RunIsBounded(window, maxAttempts, tr, steps, key, k, i - 1);
      assert InFlight(tr[i], key) <= k;
      StepKeepsBounded(window, maxAttempts, k, tr[i - 1], steps[i - 1], key);
    }
  }

  /** With at most `k` logins in flight on a key, the failures recorded on it since its last reset
      number at most max_attempts - 1 + k in any window; one at a time, at most max_attempts. */
  lemma OvershootIsBounded(window: Time, maxAttempts: int, tr: seq<State>, steps: seq<Step>, key: string, k: nat,
                           i: nat, t: Time)
    requires maxAttempts >= 1 && IsRun(window, maxAttempts, tr, steps, key, k) && i < |tr|
    ensures Failures(tr[i], key, window, t) <= maxAttempts - 1 + k
    ensures k == 1 ==> Failures(tr[i], key, window, t) <= maxAttempts
  {
    RunIsBounded(window, maxAttempts, tr, steps, key, k, i);
  }

  // ----- windows that hold resets -----

  /** Every failure recorded on the key in (lo, hi], resets or not. */
  function AllFailures(ops: seq<Op>, key: string, lo: Time, hi: Time): nat {
    if ops == [] then 0
    else
      var op := ops[|ops| - 1];
      AllFailures(ops[..|ops| - 1], key, lo, hi)
      + if op.key == key && op.Record? && lo < op.at <= hi then 1 else 0
  }

  /** The resets of the key in (lo, hi]. */
  function Resets(ops: seq<Op>, key: string, lo: Time, hi: Time): nat {
    if ops == [] then 0
    else
      var op := ops[|ops| - 1];
      Resets(ops[..|ops| - 1], key, lo, hi) + if op.key == key && op.Reset? && lo < op.at <= hi then 1 else 0
  }

  lemma {:induction false} NothingYet(ops: seq<Op>, key: string, lo: Time, hi: Time)
    requires Chronological(ops, lo)
    ensures AllFailures(ops, key, lo, hi) == 0
    decreases |ops|
  {
    if ops != [] {
      ChronologicalLater(ops[..|ops| - 1], ops[|ops| - 1].at, lo);
      NothingYet(ops[..|ops| - 1], key, lo, hi);
    }
  }

  lemma ChronologicalLater(ops: seq<Op>, now: Time, later: Time)
    requires Chronological(ops, now) && now <= later
    ensures Chronological(ops, later)
  {}

  /** One more call, seen from a window: the failures and resets in it, and the failures in it since
      the last reset. */
  lemma OneMoreInWindow(ops: seq<Op>, op: Op, key: string, lo: Time, hi: Time)
    ensures AllFailures(ops + [op], key, lo, hi) ==
            AllFailures(ops, key, lo, hi) + if op.key == key && op.Record? && lo < op.at <= hi then 1 else 0
    ensures Resets(ops + [op], key, lo, hi) ==
            Resets(ops, key, lo, hi) + if op.key == key && op.Reset? && lo < op.at <= hi then 1 else 0
    ensures CountIn(History(ops + [op], key), lo, hi) ==
            if op.key == key && op.Reset? then 0
            else CountIn(History(ops, key), lo, hi) + if op.key == key && op.Record? && lo < op.at <= hi then 1 else 0
  {
    assert (ops + [op])[..|ops|] == ops;
    OneMoreCall(ops, op, key);
    OneMoreHit(History(ops, key), op.at, lo, hi);
  }

  /** What so many stretches may hold in all. */
  function Allowance(stretches: nat, bound: nat): nat {
    if stretches == 0 then 0 else Allowance(stretches - 1, bound) + bound
  }

  /** Each reset in the window starts the count of failures again: one bound for each stretch between
      resets that is over, and for the last one what it holds so far. */
  ghost predicate Stretched(bound: nat, s: State, key: string, lo: Time, hi: Time) {
    AllFailures(s.ops, key, lo, hi) <=
    Allowance(Resets(s.ops, key, lo, hi), bound) + if s.now <= hi then CountIn(History(s.ops, key), lo, hi) else bound
  }

  lemma CallKeepsStretched(bound: nat, s: State, op: Op, key: string, lo: Time, hi: Time)
    requires Chronological(s.ops, s.now) && op.at == s.now
    requires CountIn(History(s.ops, key), lo, hi) <= bound && Stretched(bound, s, key, lo, hi)
    ensures Stretched(bound, s.(ops := s.ops + [op]), key, lo, hi)
  {
    OneMoreInWindow(s.ops, op, key, lo, hi);
    if op.key == key && op.Reset? && op.at <= hi {
      if lo < op.at {
        assert Allowance(Resets(s.ops, key, lo, hi) + 1, bound) == Allowance(Resets(s.ops, key, lo, hi), bound) + bound;
      } else {
        ChronologicalLater(s.ops, s.now, lo);
        NothingYet(s.ops, key, lo, hi);
      }
    }
  }

  lemma {:induction false} AllowanceIsAProduct(resets: nat, bound: nat)
    ensures Allowance(resets, bound) == resets * bound
  {
    if resets > 0 {
      AllowanceIsAProduct(resets - 1, bound);
      assert resets * bound == (resets - 1) * bound + bound;
    }
  }

  lemma StepKeepsStretched(window: Time, maxAttempts: int, bound: nat, s: State, step: Step, key: string,
                           lo: Time, hi: Time)
    requires Enabled(s, step) && Chronological(s.ops, s.now)
    requires CountIn(History(s.ops, key), lo, hi) <= bound && Stretched(bound, s, key, lo, hi)
    ensures Stretched(bound, Next(window, maxAttempts, s, step), key, lo, hi)
  {
    match step
    case Check(other) => CallKeepsStretched(bound, s, IsLimited(other, s.now), key, lo, hi);
    case Fail(other) => CallKeepsStretched(bound, s, Record(other, s.now), key, lo, hi);
    case Succeed(other) => CallKeepsStretched(bound, s, Reset(other, s.now), key, lo, hi);
    case _ =>
  }

  lemma BoundedBefore(window: Time, maxAttempts: int, tr: seq<State>, steps: seq<Step>, key: string, k: nat,
                      i: nat, t: Time)
    requires maxAttempts >= 1 && IsRun(window, maxAttempts, tr, steps, key, k) && i < |steps|
    ensures Enabled(tr[i], steps[i]) && Chronological(tr[i].ops, tr[i].now)
    ensures CountIn(History(tr[i].ops, key), t - window, t) <= maxAttempts - 1 + k
  {
    RunIsBounded(window, maxAttempts, tr, steps, key, k, i);
    assert Failures(tr[i], key, window, t) <= maxAttempts - 1 + k;
  }

  lemma RunStep(window: Time, maxAttempts: int, tr: seq<State>, steps: seq<Step>, key: string, k: nat, i: nat)
    requires IsRun(window, maxAttempts, tr, steps, key, k) && i < |steps|
    ensures Enabled(tr[i], steps[i]) && tr[i + 1] == Next(window, maxAttempts, tr[i], steps[i])
  {}

  lemma RunStepKeepsStretched(window: Time, maxAttempts: int, tr: seq<State>, steps: seq<Step>, key: string, k: nat,
                              i: nat, lo: Time, hi: Time)
    requires maxAttempts >= 1 && IsRun(window, maxAttempts, tr, steps, key, k) && i < |steps| && lo == hi - window
    requires Stretched(maxAttempts - 1 + k, tr[i], key, lo, hi)
    ensures Stretched(maxAttempts - 1 + k, tr[i + 1], key, lo, hi)
  {
    var bound, s, step := maxAttempts - 1 + k, tr[i], steps[i];
    BoundedBefore(window, maxAttempts, tr, steps, key, k, i, hi);
    StepKeepsStretched(window, maxAttempts, bound, s, step, key, lo, hi);
    RunStep(window, maxAttempts, tr, steps, key, k, i);
  }

  lemma {:induction false} RunIsStretched(window: Time, maxAttempts: int, tr: seq<State>, steps: seq<Step>,
                                          key: string, k: nat, i: nat, lo: Time, hi: Time)
    requires maxAttempts >= 1 && IsRun(window, maxAttempts, tr, steps, key, k) && i < |tr| && lo == hi - window
    ensures Stretched(maxAttempts - 1 + k, tr[i], key, lo, hi)
  {
    if i > 0 {
      RunIsStretched(window, maxAttempts, tr, steps, key, k, i - 1, lo, hi);
      RunStepKeepsStretched(window, maxAttempts, tr, steps, key, k, i - 1, lo, hi);
    }
  }

  /** Whatever happened before it, a window with r successful logins in it holds at most
      (r + 1) * (max_attempts - 1 + k) failures. */
  lemma WindowWithResets(window: Time, maxAttempts: int, tr: seq<State>, steps: seq<Step>, key: string, k: nat,
                         i: nat, t: Time)
    requires maxAttempts >= 1 && IsRun(window, maxAttempts, tr, steps, key, k) && i < |tr|
    ensures AllFailures(tr[i].ops, key, t - window, t) <=
            (Resets(tr[i].ops, key, t - window, t) + 1) * (maxAttempts - 1 + k)
  {
    RunIsStretched(window, maxAttempts, tr, steps, key, k, i, t - window, t);
    RunIsBounded(window, maxAttempts, tr, steps, key, k, i);
    assert Failures(tr[i], key, window, t) <= maxAttempts - 1 + k;
    AllowanceIsAProduct(Resets(tr[i].ops, key, t - window, t) + 1, maxAttempts - 1 + k);
  }

  // ----- the bound is reached -----

  function Zeros(n: nat): seq<Time> {
    if n == 0 then [] else Zeros(n - 1) + [0.0]
  }

  lemma {:induction false} CountZeros(n: nat, window: Time)
    requires window > 0.0
    ensures CountIn(Zeros(n), 0.0 - window, 0.0) == n
  {
    if n > 0 {
      CountZeros(n - 1, window);
      OneMoreHit(Zeros(n - 1), 0.0, 0.0 - window, 0.0);
    }
  }

  /** At time zero, with `hits` failures recorded and `flight` logins past the check. */
  ghost predicate At(s: State, key: string, hits: nat, flight: nat) {
    s.now == 0.0 && Chronological(s.ops, 0.0) && History(s.ops, key) == Zeros(hits) && InFlight(s, key) == flight
  }

  lemma ExtendRun(window: Time, maxAttempts: int, tr: seq<State>, steps: seq<Step>, key: string, k: nat, step: Step)
    requires IsRun(window, maxAttempts, tr, steps, key, k) && Enabled(tr[|steps|], step)
    requires InFlight(Next(window, maxAttempts, tr[|steps|], step), key) <= k
    ensures IsRun(window, maxAttempts, tr + [Next(window, maxAttempts, tr[|steps|], step)], steps + [step], key, k)
  {
  }

  lemma NotYetLimited(window: Time, maxAttempts: int, ops: seq<Op>, key: string, hits: nat)
    requires window > 0.0 && hits < maxAttempts && Chronological(ops, 0.0) && History(ops, key) == Zeros(hits)
    ensures !Limited(window, maxAttempts, ops, key, 0.0)
  {
    var count := CountIn(History(ops, key), 0.0 - window, 0.0);
    assert count == hits by { CountZeros(hits, window); }
    LimiterRefinesNaiveCount(window, maxAttempts, ops, key, 0.0);
  }

  lemma CheckPasses(window: Time, maxAttempts: int, s: State, key: string, hits: nat, flight: nat)
    requires window > 0.0 && hits < maxAttempts && At(s, key, hits, flight)
    ensures At(Next(window, maxAttempts, s, Check(key)), key, hits, flight + 1)
  {
    NotYetLimited(window, maxAttempts, s.ops, key, hits);
    assert History(s.ops + [IsLimited(key, s.now)], key) == Zeros(hits)
           && Chronological(s.ops + [IsLimited(key, s.now)], 0.0) by {
      OneMoreCall(s.ops, IsLimited(key, s.now), key);
    }
  }

  /** `n` logins pass the check one after the other and stay in flight. */
  lemma {:induction false} Checks(window: Time, maxAttempts: int, tr: seq<State>, steps: seq<Step>, key: string,
                                  k: nat, hits: nat, flight: nat, n: nat)
      returns (tr': seq<State>, steps': seq<Step>)
    requires window > 0.0 && hits < maxAttempts && flight + n <= k
    requires IsRun(window, maxAttempts, tr, steps, key, k) && At(tr[|steps|], key, hits, flight)
    ensures IsRun(window, maxAttempts, tr', steps', key, k) && At(tr'[|steps'|], key, hits, flight + n)
    decreases n
  {
    tr', steps' := tr, steps;
    if n > 0 {
      var s := tr[|steps|];
      CheckPasses(window, maxAttempts, s, key, hits, flight);
      ExtendRun(window, maxAttempts, tr, steps, key, k, Check(key));
      var s' := Next(window, maxAttempts, s, Check(key));
      tr', steps' := Checks(window, maxAttempts, tr + [s'], steps + [Check(key)], key, k, hits, flight + 1, n - 1);
    }
  }

  /** `n` of the logins in flight fail. */
  lemma {:induction false} Fails(window: Time, maxAttempts: int, tr: seq<State>, steps: seq<Step>, key: string,
                                 k: nat, hits: nat, flight: nat, n: nat)
      returns (tr': seq<State>, steps': seq<Step>)
    requires n <= flight <= k
    requires IsRun(window, maxAttempts, tr, steps, key, k) && At(tr[|steps|], key, hits, flight)
    ensures IsRun(window, maxAttempts, tr', steps', key, k) && At(tr'[|steps'|], key, hits + n, flight - n)
    decreases n
  {
    tr', steps' := tr, steps;
    if n > 0 {
      var s := tr[|steps|];
      OneMoreCall(s.ops, Record(key, 0.0), key);
      var s' := Next(window, maxAttempts, s, Fail(key));
      assert History(s'.ops, key) == Zeros(hits + 1);
      ExtendRun(window, maxAttempts, tr, steps, key, k, Fail(key));
      tr', steps' := Fails(window, maxAttempts, tr + [s'], steps + [Fail(key)], key, k, hits + 1, flight - 1, n - 1);
    }
  }

  /** `n` failed logins, one at a time. */
  lemma {:induction false} OneAtATime(window: Time, maxAttempts: int, key: string, k: nat, n: nat)
      returns (tr: seq<State>, steps: seq<Step>)
    requires window > 0.0 && 0 <= n < maxAttempts && k >= 1
    ensures IsRun(window, maxAttempts, tr, steps, key, k) && At(tr[|steps|], key, n, 0)
    decreases n
  {
    if n == 0 {
      tr, steps := [State([], 0.0, map[])], [];
    } else {
      tr, steps := OneAtATime(window, maxAttempts, key, k, n - 1);
      tr, steps := Checks(window, maxAttempts, tr, steps, key, k, n - 1, 0, 1);
      tr, steps := Fails(window, maxAttempts, tr, steps, key, k, n - 1, 1, 1);
    }
  }

  /** No smaller bound would do: some run with `k` logins in flight records max_attempts - 1 + k
      failures in one window. */
  lemma OvershootIsReached(window: Time, maxAttempts: int, key: string, k: nat)
      returns (tr: seq<State>, steps: seq<Step>)
    requires window > 0.0 && maxAttempts >= 1 && k >= 1
    ensures IsRun(window, maxAttempts, tr, steps, key, k)
    ensures Failures(tr[|steps|], key, window, tr[|steps|].now) == maxAttempts - 1 + k
  {
    tr, steps := OneAtATime(window, maxAttempts, key, k, maxAttempts - 1);
    tr, steps := Checks(window, maxAttempts, tr, steps, key, k, maxAttempts - 1, 0, k);
    tr, steps := Fails(window, maxAttempts, tr, steps, key, k, maxAttempts - 1, k, k);
    CountZeros(maxAttempts - 1 + k, window);
  }
}
