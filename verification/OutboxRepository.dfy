/** The repository over the row objects: each call updates its rows in place and is proved
    against the row functions. Clock readings and the configured base delay are arguments. */
module OutboxRepository {
  import opened Prelude
  import opened OutboxRows
  import opened OutboxQueue

  class EmailOutbox {
    const id: Id
    var status: Status
    var attempts: nat
    var maxAttempts: int
    var nextAttemptAt: Time
    var lockedAt: Option<Time>
    var sentAt: Option<Time>
    var lastError: Option<string>
    var updatedAt: Time

    /** The columns as they are stored. */
    function Value(): Row
      reads this
    {
      Row(status, attempts, maxAttempts, nextAttemptAt, lockedAt, sentAt, lastError, updatedAt)
    }

    constructor (id: Id, maxAttempts: int, now: Time)
      ensures this.id == id && Value() == NewRow(maxAttempts, now)
    {
      this.id := id;
      status, attempts, this.maxAttempts := Pending, 0, maxAttempts;
      nextAttemptAt, updatedAt := now, now;
      lockedAt, sentAt, lastError := None, None, None;
    }
  }

  class Repository {
    var rows: map<Id, EmailOutbox>

    ghost predicate Valid()
      reads this, rows.Values
    {
      forall id | id in rows :: rows[id].id == id
    }

    /** The table's contents. */
    function Table(): (t: Table)
      reads this, rows.Values
      ensures t.Keys == rows.Keys
    {
      map id | id in rows :: rows[id].Value()
    }

    constructor ()
      ensures Valid() && Table() == map[]
    {
      rows := map[];
    }

    /** `enqueue_email`: the row joins the table pending, with no attempts and due at once. */
    method EnqueueEmail(id: Id, maxAttempts: int, now: Time) returns (row: EmailOutbox)
      requires Valid() && id !in rows
      modifies this
      ensures Valid() && fresh(row)
      ensures rows == old(rows)[id := row]
      ensures Table() == old(Table())[id := NewRow(maxAttempts, now)]
    {
      row := new EmailOutbox(id, maxAttempts, now);
      rows := rows[id := row];
    }

    /** The claim query: the due rows in claim order, skipping the locked ones. */
    method SelectDue(limit: nat, now: Time, locked: set<Id>) returns (selected: seq<EmailOutbox>, ids: seq<Id>)
      requires Valid()
      ensures ids == FirstDue(Table(), now, locked, limit) && |selected| == |ids|
      ensures forall i | 0 <= i < |ids| :: ids[i] in rows && selected[i] == rows[ids[i]]
      ensures forall i, j | 0 <= i < j < |selected| :: selected[i] != selected[j]
    {
      ids := FirstDue(Table(), now, locked, limit);
      FirstDueIsExactlyTheHead(Table(), now, locked, limit);
      selected := [];
      for i := 0 to |ids|
        invariant |selected| == i
        invariant forall j | 0 <= j < i :: ids[j] in rows && selected[j] == rows[ids[j]]
      {
        assert ids[i] in ids;
        selected := selected + [rows[ids[i]]];
      }
      forall i, j | 0 <= i < j < |selected|
        ensures selected[i] != selected[j]
      {
        assert selected[i].id == ids[i] && selected[j].id == ids[j] && Before(Table(), ids[i], ids[j]);
      }
    }

    /** The claim's loop over the selected rows. */
    method MarkProcessing(selected: seq<EmailOutbox>, ids: seq<Id>, now: Time)
      requires Valid() && |selected| == |ids|
      requires forall i | 0 <= i < |ids| :: ids[i] in rows && selected[i] == rows[ids[i]]
      requires forall i, j | 0 <= i < j < |selected| :: selected[i] != selected[j]
      modifies selected
      ensures Table() == ClaimRows(old(Table()), ids, now)
    {
      for i := 0 to |selected|
        invariant forall j | 0 <= j < i :: selected[j].Value() == Claimed(old(selected[j].Value()), now)
        invariant forall j | i <= j < |selected| :: selected[j].Value() == old(selected[j].Value())
      {
        var row := selected[i];
        row.status := Processing;
        row.lockedAt := Some(now);
        row.updatedAt := now;
      }
      forall id | id in rows
        ensures id in ids <==> rows[id] in selected
      {
        if rows[id] in selected {
          var i :| 0 <= i < |ids| && selected[i] == rows[id];
          assert rows[ids[i]].id == rows[id].id;
        }
      }
    }

    method ClaimBatch(limit: nat, now: Time, locked: set<Id>) returns (claimed: seq<EmailOutbox>)
      requires Valid()
      modifies rows.Values
      ensures Valid() && rows == old(rows)
      ensures var ids := FirstDue(old(Table()), now, locked, limit);
              && |claimed| == |ids|
              && (forall i | 0 <= i < |ids| :: ids[i] in rows && claimed[i] == rows[ids[i]])
              && Table() == ClaimRows(old(Table()), ids, now)
    {
      ghost var before := Table();
      var ids: seq<Id>;
      claimed, ids := SelectDue(limit, now, locked);
      assert ids == FirstDue(before, now, locked, limit);
      MarkProcessing(claimed, ids, now);
    }

    /** `get_for_update`. */
    method GetForUpdate(id: Id) returns (row: EmailOutbox?)
      requires Valid()
      ensures row == null <==> id !in rows
      ensures row != null ==> row == rows[id]
    {
      if id in rows { row := rows[id]; } else { row := null; }
    }

    method MarkSent(row: EmailOutbox, now: Time)
      modifies row
      ensures row.Value() == MarkedSent(old(row.Value()), now)
    {
      row.status := Sent;
      row.sentAt := Some(now);
      row.lockedAt := None;
      row.lastError := None;
      row.updatedAt := now;
    }

    method MarkRetry(base: int, row: EmailOutbox, error: string, now: Time)
      modifies row
      ensures row.Value() == MarkedRetry(base, old(row.Value()), error, now)
    {
      row.attempts := row.attempts + 1;
      row.status := Pending;
      row.lockedAt := None;
      row.lastError := Some(Truncated(error));
      row.nextAttemptAt := now + ComputeBackoffSeconds(base, row.attempts) * SECOND;
      row.updatedAt := now;
    }

    method MarkFailed(row: EmailOutbox, error: string, now: Time)
      modifies row
      ensures row.Value() == MarkedFailed(old(row.Value()), error, now)
    {
      row.attempts := row.attempts + 1;
      row.status := Failed;
      row.lockedAt := None;
      row.lastError := Some(Truncated(error));
      row.updatedAt := now;
    }

    method RecordFailure(base: int, row: EmailOutbox, error: string, now: Time)
      modifies row
      ensures row.Value() == FailureRecorded(base, old(row.Value()), error, now)
    {
      if row.attempts + 1 >= row.maxAttempts {
        MarkFailed(row, error, now);
      } else {
        MarkRetry(base, row, error, now);
      }
    }
  }
}
