/** The table of outbox rows, and the due rows in the order `claim_batch` takes them. */
module OutboxQueue {
  import opened OutboxRows

  type Table = map<Id, Row>

  /** (next_attempt_at, id), compared lexicographically. */
  predicate Before(t: Table, a: Id, b: Id)
    requires a in t && b in t
  {
    t[a].nextAttemptAt < t[b].nextAttemptAt
    || (t[a].nextAttemptAt == t[b].nextAttemptAt && a < b)
  }

  /** The rows a claim may take: due, and not locked by another transaction. */
  function Eligible(t: Table, now: Time, locked: set<Id>): set<Id> {
    set id | id in t && id !in locked && Due(t[id], now)
  }

  predicate IsFirst(t: Table, ids: set<Id>, first: Id)
    requires ids <= t.Keys
  {
    first in ids && forall id | id in ids && id != first :: Before(t, first, id)
  }

  lemma {:induction false} FirstExists(t: Table, ids: set<Id>)
    requires ids <= t.Keys && ids != {}
    ensures exists first | first in ids :: IsFirst(t, ids, first)
    decreases |ids|
  {
    var x :| x in ids;
    if ids == {x} {
      assert IsFirst(t, ids, x);
    } else {
      FirstExists(t, ids - {x});
      var rest :| rest in ids - {x} && IsFirst(t, ids - {x}, rest);
      if Before(t, x, rest) {
        forall id | id in ids && id != x
          ensures Before(t, x, id)
        {
          assert id in ids - {x};
        }
        assert IsFirst(t, ids, x);
      } else {
        assert IsFirst(t, ids, rest);
      }
    }
  }

  /** The given rows in claim order. */
  function Ranked(t: Table, ids: set<Id>): (order: seq<Id>)
    requires ids <= t.Keys
    ensures |order| == |ids|
    ensures forall id :: id in order <==> id in ids
    decreases |ids|
  {
    if ids == {} then []
    else
      FirstExists(t, ids);
      var first :| first in ids && IsFirst(t, ids, first);
      [first] + Ranked(t, ids - {first})
  }

  /** In claim order, each row once. */
  predicate Increasing(t: Table, order: seq<Id>)
    requires forall id | id in order :: id in t
  {
    forall i, j | 0 <= i < j < |order| :: Before(t, order[i], order[j])
  }

  lemma {:induction false} RankedIsStrictlyIncreasing(t: Table, ids: set<Id>)
    requires ids <= t.Keys
    ensures Increasing(t, Ranked(t, ids))
    decreases |ids|
  {
    if ids != {} {
      var order := Ranked(t, ids);
      RankedIsStrictlyIncreasing(t, ids - {order[0]});
      assert order[1..] == Ranked(t, ids - {order[0]});
      forall i, j | 0 <= i < j < |order|
        ensures Before(t, order[i], order[j])
      {
        if i > 0 {
          assert order[i] == order[1..][i - 1] && order[j] == order[1..][j - 1];
        } else {
          assert order[j] in order[1..];
        }
      }
    }
  }

  /** The result of the claim query. */
  function FirstDue(t: Table, now: Time, locked: set<Id>, limit: nat): (ids: seq<Id>)
    ensures |ids| <= limit && forall id | id in ids :: id in t
  {
    var order := Ranked(t, Eligible(t, now, locked));
    if |order| <= limit then order else order[..limit]
  }

  /** The claim takes distinct due unlocked rows, at most `limit` of them and fewer only when
      there are no more, in order, and leaves behind only rows that come later. */
  lemma FirstDueIsExactlyTheHead(t: Table, now: Time, locked: set<Id>, limit: nat)
    ensures |FirstDue(t, now, locked, limit)| ==
            if |Eligible(t, now, locked)| < limit then |Eligible(t, now, locked)| else limit
    ensures forall id | id in FirstDue(t, now, locked, limit) :: id in Eligible(t, now, locked)
    ensures Increasing(t, FirstDue(t, now, locked, limit))
    ensures var ids := FirstDue(t, now, locked, limit);
            forall i, j | 0 <= i < j < |ids| ::
              t[ids[i]].nextAttemptAt <= t[ids[j]].nextAttemptAt
              && (t[ids[i]].nextAttemptAt == t[ids[j]].nextAttemptAt ==> ids[i] < ids[j])
    ensures var ids := FirstDue(t, now, locked, limit);
            forall a, b | a in ids && b in Eligible(t, now, locked) && b !in ids :: Before(t, a, b)
    ensures forall id | id in Eligible(t, now, locked) && id !in FirstDue(t, now, locked, limit) ::
              |FirstDue(t, now, locked, limit)| == limit
  {
    var eligible := Eligible(t, now, locked);
    var order := Ranked(t, eligible);
    var ids := FirstDue(t, now, locked, limit);
    RankedIsStrictlyIncreasing(t, eligible);
    assert forall i | 0 <= i < |ids| :: ids[i] == order[i];
    forall a, b | a in ids && b in eligible && b !in ids
      ensures Before(t, a, b)
    {
      var i :| 0 <= i < |ids| && ids[i] == a;
      var j :| 0 <= j < |order| && order[j] == b;
      assert order[i] == a;
      assert j >= |ids| by {
        assert order[j] !in ids;
      }
      assert Before(t, order[i], order[j]);
    }
  }

  /** Every chosen row after the claim; the others untouched. */
  function ClaimRows(t: Table, ids: seq<Id>, now: Time): Table {
    map id | id in t :: if id in ids then Claimed(t[id], now) else t[id]
  }
}
