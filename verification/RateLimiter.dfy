/** The sliding-window login limiter: per-key deques, pruned on use, against a naive count over
    the whole history; and how far concurrent logins can overshoot the limit. */
module RateLimiter {
  import opened Prelude

  type Time = real
  type Hits = map<string, seq<Time>>

  function Get(hits: Hits, key: string): seq<Time> {
    if key in hits then hits[key] else []
  }

  function DropExpired(queue: seq<Time>, cutoff: Time): seq<Time> {
    if queue != [] && queue[0] <= cutoff then DropExpired(queue[1..], cutoff) else queue
  }

  /** An empty deque is not stored. */
  function Pruned(hits: Hits, key: string, cutoff: Time): Hits {
    var queue := DropExpired(Get(hits, key), cutoff);
    if queue == [] then hits - {key} else hits[key := queue]
  }

  function Recorded(hits: Hits, key: string, now: Time, window: Time): Hits {
    var pruned := Pruned(hits, key, now - window);
    pruned[key := Get(pruned, key) + [now]]
  }

  class SlidingWindowRateLimiter {
    const maxAttempts: int
    const windowSeconds: Time
    var hits: Hits

    constructor (maxAttempts: int, windowSeconds: Time)
      ensures this.maxAttempts == maxAttempts && this.windowSeconds == windowSeconds && hits == map[]
    {
      this.maxAttempts, this.windowSeconds, hits := maxAttempts, windowSeconds, map[];
    }

    method Prune(key: string, now: Time) returns (queue: seq<Time>)
      modifies this
      ensures hits == Pruned(old(hits), key, now - windowSeconds) && queue == Get(hits, key)
    {
      queue := Get(hits, key);
      hits := hits[key := queue];
      while queue != [] && queue[0] <= now - windowSeconds
        invariant hits == old(hits)[key := queue]
        invariant DropExpired(queue, now - windowSeconds) == DropExpired(Get(old(hits), key), now - windowSeconds)
        decreases |queue|
      {
        queue := queue[1..];
        hits := hits[key := queue];
      }
      if queue == [] {
        hits := hits - {key};
        assert hits == old(hits) - {key};
      }
    }

    method IsLimited(key: string, now: Time) returns (limited: bool)
      modifies this
      ensures hits == Pruned(old(hits), key, now - windowSeconds)
      ensures limited <==> |Get(hits, key)| >= maxAttempts
    {
      var queue := Prune(key, now);
      limited := |queue| >= maxAttempts;
    }

    /** The HTTP status of the refusal, if any. */
    method Check(key: string, now: Time) returns (refusal: Option<int>)
      modifies this
      ensures hits == Pruned(old(hits), key, now - windowSeconds)
      ensures refusal == if |Get(hits, key)| >= maxAttempts then Some(429) else None
    {
      var limited := IsLimited(key, now);
      refusal := if limited then Some(429) else None;
    }

    method Record(key: string, now: Time)
      modifies this
      ensures hits == Recorded(old(hits), key, now, windowSeconds)
    {
      var queue := Prune(key, now);
      hits := hits[key := Get(hits, key) + [now]];
    }

    method Reset(key: string)
      modifies this
      ensures hits == old(hits) - {key}
    {
      hits := hits - {key};
    }
  }

  // ----- runs -----

  datatype Op = IsLimited(key: string, at: Time) | Record(key: string, at: Time) | Reset(key: string, at: Time)

  function Apply(window: Time, hits: Hits, op: Op): Hits {
    match op
    case IsLimited(key, at) => Pruned(hits, key, at - window)
    case Record(key, at) => Recorded(hits, key, at, window)
    case Reset(key, _) => hits - {key}
  }

  /** The limiter's dictionary after a sequence of calls. */
  function After(window: Time, ops: seq<Op>): Hits {
    if ops == [] then map[] else Apply(window, After(window, ops[..|ops| - 1]), ops[|ops| - 1])
  }

  /** One call's effect on the full history of `key`: nothing is ever pruned. */
  function Extended(history: seq<Time>, op: Op, key: string): seq<Time> {
    if op.key != key then history
    else
      match op
      case IsLimited(_, _) => history
      case Record(_, at) => history + [at]
      case Reset(_, _) => []
  }

  /** Every hit on `key` since its last reset. */
  function History(ops: seq<Op>, key: string): seq<Time> {
    if ops == [] then [] else Extended(History(ops[..|ops| - 1], key), ops[|ops| - 1], key)
  }

  /** The hits h with lo < h <= hi. */
  function CountIn(history: seq<Time>, lo: Time, hi: Time): nat {
    if history == [] then 0
    else CountIn(history[..|history| - 1], lo, hi) + if lo < history[|history| - 1] <= hi then 1 else 0
  }

  ghost predicate Sorted(times: seq<Time>) {
    forall i, j | 0 <= i < j < |times| :: times[i] <= times[j]
  }

  /** The calls happen under a clock that never runs backwards and reads at most `now`. */
  ghost predicate Chronological(ops: seq<Op>, now: Time)
    decreases |ops|
  {
    ops == [] || (ops[|ops| - 1].at <= now && Chronological(ops[..|ops| - 1], ops[|ops| - 1].at))
  }

  /** What is stored is the history without a prefix that has left the window. */
  ghost predicate Trimmed(stored: seq<Time>, history: seq<Time>, cutoff: Time) {
    && |stored| <= |history| && stored == history[|history| - |stored|..]
    && forall i | 0 <= i < |history| - |stored| :: history[i] <= cutoff
  }

  lemma {:induction false} DropIsTrimmed(queue: seq<Time>, cutoff: Time)
    ensures Trimmed(DropExpired(queue, cutoff), queue, cutoff)
    ensures Sorted(queue) ==> forall h | h in DropExpired(queue, cutoff) :: h > cutoff
  {
    if queue != [] && queue[0] <= cutoff {
      DropIsTrimmed(queue[1..], cutoff);
    }
  }

  lemma TrimmedTwice(a: seq<Time>, b: seq<Time>, history: seq<Time>, early: Time, late: Time)
    requires Trimmed(a, b, late) && Trimmed(b, history, early) && early <= late
    ensures Trimmed(a, history, late)
  {
    var n := |history| - |b|;
    assert forall i | n <= i < |history| :: history[i] == b[i - n];
  }

  ghost predicate Past(history: seq<Time>, now: Time) {
    Sorted(history) && forall i | 0 <= i < |history| :: history[i] <= now
  }

  lemma {:induction false} HistoryIsPast(ops: seq<Op>, key: string, now: Time)
    requires Chronological(ops, now)
    ensures Past(History(ops, key), now)
    decreases |ops|
  {
    if ops != [] {
      HistoryIsPast(ops[..|ops| - 1], key, ops[|ops| - 1].at);
    }
  }

  lemma PruneKeepsTrimmed(stored: seq<Time>, history: seq<Time>, cutoff: Time)
    requires Trimmed(stored, history, cutoff)
    ensures Trimmed(DropExpired(stored, cutoff), history, cutoff)
  {
    DropIsTrimmed(stored, cutoff);
    TrimmedTwice(DropExpired(stored, cutoff), stored, history, cutoff, cutoff);
  }

  lemma AppendKeepsTrimmed(stored: seq<Time>, history: seq<Time>, cutoff: Time, hit: Time)
    requires Trimmed(stored, history, cutoff)
    ensures Trimmed(stored + [hit], history + [hit], cutoff)
  {
    assert stored + [hit] == (history + [hit])[|history| - |stored|..];
  }

  lemma PruneDropsExpired(hits: Hits, key: string, cutoff: Time)
    ensures Get(Pruned(hits, key, cutoff), key) == DropExpired(Get(hits, key), cutoff)
  {}

  lemma CallOnKey(window: Time, hits: Hits, op: Op, key: string)
    ensures Get(Apply(window, hits, op), key) ==
            if op.key != key then Get(hits, key)
            else match op
              case IsLimited(_, at) => DropExpired(Get(hits, key), at - window)
              case Record(_, at) => DropExpired(Get(hits, key), at - window) + [at]
              case Reset(_, _) => []
  {
    if op.key == key {
      PruneDropsExpired(hits, key, op.at - window);
    }
  }

  lemma CallKeepsTrimmed(window: Time, hits: Hits, history: seq<Time>, op: Op, key: string)
    requires Trimmed(Get(hits, key), history, op.at - window)
    ensures Trimmed(Get(Apply(window, hits, op), key), Extended(history, op, key), op.at - window)
  {
    CallOnKey(window, hits, op, key);
    if op.key == key {
      var cutoff := op.at - window;
      var kept := DropExpired(Get(hits, key), cutoff);
      PruneKeepsTrimmed(Get(hits, key), history, cutoff);
      if op.Record? {
        AppendKeepsTrimmed(kept, history, cutoff, op.at);
      }
    }
  }

  /** The invariant of a run: what is stored for any key is its history, less hits that are out of
      the window by now. */
  lemma {:induction false} StoredIsTrimmedHistory(window: Time, ops: seq<Op>, key: string, now: Time)
    requires Chronological(ops, now)
    ensures Trimmed(Get(After(window, ops), key), History(ops, key), now - window)
    decreases |ops|
  {
    if ops != [] {
      var before, op := ops[..|ops| - 1], ops[|ops| - 1];
      StoredIsTrimmedHistory(window, before, key, op.at);
      CallKeepsTrimmed(window, After(window, before), History(before, key), op, key);
    }
  }

  lemma {:induction false} NoEmptyDeque(window: Time, ops: seq<Op>, key: string)
    ensures key in After(window, ops) ==> After(window, ops)[key] != []
    decreases |ops|
  {
    if ops != [] {
      NoEmptyDeque(window, ops[..|ops| - 1], key);
    }
  }

  lemma {:induction false} CountInTrimmed(history: seq<Time>, n: nat, lo: Time, hi: Time)
    requires n <= |history|
    requires forall i | 0 <= i < n :: history[i] <= lo
    requires forall i | n <= i < |history| :: lo < history[i] <= hi
    ensures CountIn(history, lo, hi) == |history| - n
  {
    if history != [] {
      if n == |history| {
        CountInTrimmed(history[..|history| - 1], n - 1, lo, hi);
      } else {
        CountInTrimmed(history[..|history| - 1], n, lo, hi);
      }
    }
  }

  lemma TrimmedIsSorted(stored: seq<Time>, history: seq<Time>, cutoff: Time)
    requires Trimmed(stored, history, cutoff) && Sorted(history)
    ensures Sorted(stored)
  {
    assert forall i | 0 <= i < |stored| :: stored[i] == history[|history| - |stored| + i];
  }

  lemma PrunedIsNaive(stored: seq<Time>, history: seq<Time>, lo: Time, now: Time)
    requires Trimmed(stored, history, lo) && Past(history, now)
    ensures |DropExpired(stored, lo)| == CountIn(history, lo, now)
  {
    var left := DropExpired(stored, lo);
    PruneKeepsTrimmed(stored, history, lo);
    var n := |history| - |left|;
    TrimmedIsSorted(stored, history, lo);
    DropIsTrimmed(stored, lo);
    forall i | n <= i < |history|
      ensures lo < history[i] <= now
    {
      assert history[i] == left[i - n] && left[i - n] in left;
    }
    CountInTrimmed(history, n, lo, now);
  }

  /** The pruned deque holds as many hits as the naive count finds in (now - window, now]. */
  lemma PrunedCountIsNaiveCount(window: Time, ops: seq<Op>, key: string, now: Time)
    requires Chronological(ops, now)
    ensures |Get(Pruned(After(window, ops), key, now - window), key)| ==
            CountIn(History(ops, key), now - window, now)
  {
    var stored, history := Get(After(window, ops), key), History(ops, key);
    StoredIsTrimmedHistory(window, ops, key, now);
    HistoryIsPast(ops, key, now);
    PruneDropsExpired(After(window, ops), key, now - window);
    PrunedIsNaive(stored, history, now - window, now);
  }

  lemma DequesStaySorted(window: Time, ops: seq<Op>, key: string, now: Time)
    requires Chronological(ops, now)
    ensures key in After(window, ops) ==> After(window, ops)[key] != [] && Sorted(After(window, ops)[key])
  {
    StoredIsTrimmedHistory(window, ops, key, now);
    HistoryIsPast(ops, key, now);
    NoEmptyDeque(window, ops, key);
    TrimmedIsSorted(Get(After(window, ops), key), History(ops, key), now - window);
  }

  /** The answer `is_limited` gives after the calls `ops`. */
  predicate Limited(window: Time, maxAttempts: int, ops: seq<Op>, key: string, now: Time) {
    |Get(Apply(window, After(window, ops), IsLimited(key, now)), key)| >= maxAttempts
  }

  /** In every run under a monotone clock the limiter answers as the naive count does, so when and
      whether deques were pruned cannot be observed; deques stay sorted and are never empty. */
  lemma LimiterRefinesNaiveCount(window: Time, maxAttempts: int, ops: seq<Op>, key: string, now: Time)
    requires Chronological(ops, now)
    ensures Limited(window, maxAttempts, ops, key, now) <==>
            CountIn(History(ops, key), now - window, now) >= maxAttempts
    ensures key in After(window, ops) ==> After(window, ops)[key] != [] && Sorted(After(window, ops)[key])
  {
    PrunedCountIsNaiveCount(window, ops, key, now);
    DequesStaySorted(window, ops, key, now);
  }

  /** Calls on other keys can be struck from a run without changing what a key stores. */
  lemma {:induction false} KeysAreIndependent(window: Time, ops: seq<Op>, own: seq<Op>, key: string)
    requires own == OnKey(ops, key)
    ensures Get(After(window, ops), key) == Get(After(window, own), key)
    ensures key in After(window, ops) <==> key in After(window, own)
  {
    if ops != [] {
      var before, op := ops[..|ops| - 1], ops[|ops| - 1];
      KeysAreIndependent(window, before, OnKey(before, key), key);
      if op.key == key {
        assert own[..|own| - 1] == OnKey(before, key);
      }
    }
  }

  function OnKey(ops: seq<Op>, key: string): seq<Op> {
    if ops == [] then []
    else
      var before := OnKey(ops[..|ops| - 1], key);
      if ops[|ops| - 1].key == key then before + [ops[|ops| - 1]] else before
  }
}
