/** The event_outbox table and the meaning of its statements (events/outbox_helpers.go,
    events/outbox_janitor.go), with the loops that run them (events/outbox_handler.go). */
module OutboxTable {
  import opened Wrappers

  datatype Id = Id(token: int)
  datatype TxId = TxId(token: int)

  /** The columns that change; published and dead stand for published_at and dead_at. */
  datatype Row = Row(retry: nat, next: Option<int>, published: Option<int>, dead: bool)
  {
    predicate Open() { published.None? && !dead }
  }

  /** The columns that never change: the transaction that wrote the event and created_at. */
  datatype Birth = Birth(tx: TxId, created: int)

  type Rows = map<Id, Row>
  type Births = map<Id, Birth>

  /** a and b belong to one transaction and a was written first. */
  predicate Precedes(born: Births, a: Id, b: Id) {
    a in born && b in born && born[a].tx == born[b].tx && born[a].created < born[b].created
  }

  predicate IsOpen(rows: Rows, id: Id) { id in rows && rows[id].Open() }

  // ---- Statements ----

  function Pow2(n: nat): nat { if n == 0 then 1 else 2 * Pow2(n - 1) }

  /** LEAST(POWER(2, retry_count), 3600) seconds. */
  function Backoff(retry: nat): nat { if Pow2(retry) < 3600 then Pow2(retry) else 3600 }

  function MarkPublished(rows: Rows, id: Id, now: int): Rows {
    if id in rows then rows[id := rows[id].(published := Some(now), next := None)] else rows
  }

  function MarkFailed(rows: Rows, id: Id, now: int): Rows {
    if id in rows
    then rows[id := rows[id].(retry := rows[id].retry + 1, next := Some(now + Backoff(rows[id].retry)))]
    else rows
  }

  function MarkTransactionDead(rows: Rows, born: Births, tx: TxId): Rows {
    map id | id in rows ::
      if rows[id].Open() && id in born && born[id].tx == tx then rows[id].(dead := true) else rows[id]
  }

  /** The lease: next_retry_at is pushed out on the claimed rows that are still open. */
  function Claim(rows: Rows, ids: set<Id>, until: int): Rows {
    map id | id in rows :: if id in ids && rows[id].Open() then rows[id].(next := Some(until)) else rows[id]
  }

  /** Not yet exhausted, and not yet due. */
  predicate HeldBack(row: Row, maxRetries: nat, now: int) {
    row.retry < maxRetries && row.next.Some? && row.next.value > now
  }

  /** The HAVING clause of the selector, over a transaction's open rows: one is exhausted, or none
      is held back. */
  ghost predicate Selectable(rows: Rows, born: Births, tx: TxId, maxRetries: nat, now: int) {
    || (exists id :: IsOpen(rows, id) && id in born && born[id].tx == tx && rows[id].retry >= maxRetries)
    || (forall id :: IsOpen(rows, id) && id in born && born[id].tx == tx ==> !HeldBack(rows[id], maxRetries, now))
  }

  // ---- Marks ----

  datatype Mark = Published(id: Id) | Failed(id: Id) | Dead(tx: TxId, dropped: nat)

  function Apply(rows: Rows, born: Births, mark: Mark, now: int): Rows {
    match mark
    case Published(id) => MarkPublished(rows, id, now)
    case Failed(id) => MarkFailed(rows, id, now)
    case Dead(tx, _) => MarkTransactionDead(rows, born, tx)
  }

  function ApplyAll(rows: Rows, born: Births, marks: seq<Mark>, now: int): Rows {
    if marks == [] then rows
    else Apply(ApplyAll(rows, born, marks[..|marks| - 1], now), born, marks[|marks| - 1], now)
  }

  /** A row as the selector returned it. */
  datatype Entry = Entry(id: Id, retry: nat)

  /** What becomes of a publish: the stream stores it, refuses it, or stores it and the
      acknowledgement is lost. */
  datatype Outcome = Accepted | Refused | AckLost

  /** The marks of one pass over a group. */
  function GroupMarks(tx: TxId, entries: seq<Entry>, maxRetries: nat, outcome: Id -> Outcome): seq<Mark> {
    if entries == [] then []
    else if entries[0].retry >= maxRetries then [Dead(tx, |entries|)]
    else if outcome(entries[0].id) == Accepted
        then [Published(entries[0].id)] + GroupMarks(tx, entries[1..], maxRetries, outcome)
    else [Failed(entries[0].id)]
  }

  /** What that pass adds to the stream. */
  function GroupStored(entries: seq<Entry>, maxRetries: nat, outcome: Id -> Outcome): seq<Id> {
    if entries == [] || entries[0].retry >= maxRetries || outcome(entries[0].id) == Refused then []
    else
      [entries[0].id]
      + if outcome(entries[0].id) == Accepted then GroupStored(entries[1..], maxRetries, outcome) else []
  }

  /** The first k entries are published; then nothing, one failure, or an entry out of retries
      that drops it and all that follow. */
  ghost predicate Pass(tx: TxId, entries: seq<Entry>, maxRetries: nat, marks: seq<Mark>, k: nat) {
    && k <= |entries| && k <= |marks| <= k + 1
    && (forall i :: 0 <= i < k ==> marks[i] == Published(entries[i].id) && entries[i].retry < maxRetries)
    && (|marks| == k ==> k == |entries|)
    && (|marks| == k + 1 ==>
          (k < |entries| &&
           if entries[k].retry >= maxRetries then marks[k] == Dead(tx, |entries| - k)
               else marks[k] == Failed(entries[k].id)))
  }

  /** Marks come as published, published, ..., then at most one failed or dead; what was published
      and what is dropped add up to the group; and the stream holds what is marked published, in
      order, and at most the entry that failed. */
  lemma {:induction false} GroupMarksShape(tx: TxId, entries: seq<Entry>, maxRetries: nat, outcome: Id -> Outcome)
    returns (k: nat)
    ensures Pass(tx, entries, maxRetries, GroupMarks(tx, entries, maxRetries, outcome), k)
    ensures k <= |GroupStored(entries, maxRetries, outcome)| <= k + 1
    ensures |GroupStored(entries, maxRetries, outcome)| <= |entries|
    ensures forall i :: 0 <= i < |GroupStored(entries, maxRetries, outcome)| ==>
        GroupStored(entries, maxRetries, outcome)[i] == entries[i].id
    ensures |GroupStored(entries, maxRetries, outcome)| == k + 1 ==>
        GroupMarks(tx, entries, maxRetries, outcome)[k] == Failed(entries[k].id)
  {
    k := 0;
    if entries != [] && entries[0].retry < maxRetries && outcome(entries[0].id) == Accepted {
      var j := GroupMarksShape(tx, entries[1..], maxRetries, outcome);
      k := j + 1;
    }
  }

  lemma {:induction false} MarksAfter(tx: TxId, entries: seq<Entry>, i: nat, maxRetries: nat, outcome: Id -> Outcome)
    requires i < |entries|
    ensures GroupMarks(tx, entries[i..], maxRetries, outcome) ==
      if entries[i].retry >= maxRetries then [Dead(tx, |entries| - i)]
      else if outcome(entries[i].id) == Accepted
          then [Published(entries[i].id)] + GroupMarks(tx, entries[i + 1..], maxRetries, outcome)
      else [Failed(entries[i].id)]
    ensures GroupStored(entries[i..], maxRetries, outcome) ==
      if entries[i].retry >= maxRetries || outcome(entries[i].id) == Refused then []
      else [entries[i].id] + if outcome(entries[i].id) == Accepted
          then GroupStored(entries[i + 1..], maxRetries, outcome) else []
  {
    assert entries[i..][1..] == entries[i + 1..];
  }

  lemma {:induction false} NothingLeft(tx: TxId, entries: seq<Entry>, maxRetries: nat, outcome: Id -> Outcome)
    ensures GroupMarks(tx, entries[|entries|..], maxRetries, outcome) == []
        && GroupStored(entries[|entries|..], maxRetries, outcome) == []
  {
  }

  lemma {:induction false} Regroup<T>(a: seq<T>, x: T, b: seq<T>)
    ensures a + ([x] + b) == (a + [x]) + b
  {
  }

  /** Old enough for the janitor. */
  predicate Prunable(row: Row, cutoff: int) { row.published.Some? && row.published.value < cutoff }

  class Handler {
    const maxRetries: nat
    const born: Births
    var rows: Rows
    var stream: seq<Id>
    var dlq: set<Id>

    constructor (maxRetries: nat, born: Births, rows: Rows)
      ensures this.maxRetries == maxRetries && this.born == born && this.rows == rows && stream == [] && dlq == {}
    {
      this.maxRetries, this.born, this.rows, stream, dlq := maxRetries, born, rows, [], {};
    }

    /** publishEntry. */
    method PublishEntry(entry: Entry, outcome: Id -> Outcome) returns (mark: Mark)
      modifies this`stream
      ensures mark == if outcome(entry.id) == Accepted then Published(entry.id) else Failed(entry.id)
      ensures stream == if outcome(entry.id) == Refused then old(stream) else old(stream) + [entry.id]
    {
      if outcome(entry.id) != Refused {
        stream := stream + [entry.id];
      }
      mark := if outcome(entry.id) == Accepted then Published(entry.id) else Failed(entry.id);
    }

    /** publishTransactionGroup: in order, up to the first failure; an exhausted entry dead-letters
        the rest. */
    method PublishTransactionGroup(tx: TxId, entries: seq<Entry>, outcome: Id -> Outcome) returns (marks: seq<Mark>)
      modifies this`stream
      ensures marks == GroupMarks(tx, entries, maxRetries, outcome)
      ensures stream == old(stream) + GroupStored(entries, maxRetries, outcome)
    {
      hide GroupMarks, GroupStored;
      marks := [];
      assert entries[0..] == entries;
      for i := 0 to |entries|
        invariant |marks| == i
        invariant GroupMarks(tx, entries, maxRetries, outcome) ==
            marks + GroupMarks(tx, entries[i..], maxRetries, outcome)
        invariant old(stream) + GroupStored(entries, maxRetries, outcome) ==
            stream + GroupStored(entries[i..], maxRetries, outcome)
      {
        MarksAfter(tx, entries, i, maxRetries, outcome);
        if entries[i].retry >= maxRetries {
          assert stream + [] == stream;
          marks := marks + [Dead(tx, |entries| - |marks|)];
          return;
        }
        Regroup(marks, Published(entries[i].id), GroupMarks(tx, entries[i + 1..], maxRetries, outcome));
        Regroup(stream, entries[i].id, GroupStored(entries[i + 1..], maxRetries, outcome));
        Regroup(stream, entries[i].id, []);
        var mark := PublishEntry(entries[i], outcome);
        marks := marks + [mark];
        if mark.Failed? {
          assert stream + [] == stream;
          return;
        }
      }
      NothingLeft(tx, entries, maxRetries, outcome);
      assert marks + [] == marks && stream + [] == stream;
    }

    /** persistMarks: all marks in one transaction, or none.  A statement may fail, the commit may not
        be applied, and it may be applied although an error is reported. */
    method PersistMarks(marks: seq<Mark>, now: int, statements: nat, applied: bool, reported: bool) returns (ok: bool)
      modifies this`rows
      ensures rows == if applied && statements >= |marks| then ApplyAll(old(rows), born, marks, now) else old(rows)
      ensures ok <==> marks == [] || (statements >= |marks| && applied && reported)
    {
      if |marks| == 0 {
        return true;
      }
      var tx := rows;
      for i := 0 to |marks|
        invariant i <= statements && tx == ApplyAll(rows, born, marks[..i], now)
      {
        if i == statements {
          return false;
        }
        assert marks[..i + 1][..i] == marks[..i];
        tx := Apply(tx, born, marks[i], now);
      }
      assert marks[..|marks|] == marks;
      if applied {
        rows := tx;
      }
      ok := applied && reported;
    }

    /** publishDeadLetters: exactly the rows whose payload parses and whose DLQ publish was
        acknowledged; the others are left for the next tick. */
    method PublishDeadLetters(dead: seq<Id>, parses: Id -> bool, outcome: Id -> Outcome) returns (acked: seq<Id>)
      modifies this`dlq
      ensures forall id :: id in acked <==> id in dead && parses(id) && outcome(id) == Accepted
      ensures forall id :: id in dlq <==> id in old(dlq) || (id in dead && parses(id) && outcome(id) != Refused)
      ensures |acked| <= |dead|
    {
      acked := [];
      for i := 0 to |dead|
        invariant forall id :: id in acked <==> id in dead[..i] && parses(id) && outcome(id) == Accepted
        invariant forall id :: id in dlq <==>
            id in old(dlq) || (id in dead[..i] && parses(id) && outcome(id) != Refused)
        invariant |acked| <= i
      {
        assert dead[..i + 1] == dead[..i] + [dead[i]];
        if !parses(dead[i]) {
          continue;
        }
        if outcome(dead[i]) != Refused {
          dlq := dlq + {dead[i]};
        }
        if outcome(dead[i]) != Accepted {
          continue;
        }
        acked := acked + [dead[i]];
      }
      assert dead[..|dead|] == dead;
    }

    /** drainDeadLetters, from the rows it selected: a row leaves the table only if the DLQ has
        acknowledged it. */
    method DrainDeadLetters(dead: seq<Id>, parses: Id -> bool, outcome: Id -> Outcome, applied: bool)
      modifies this`rows, this`dlq
      ensures rows == if applied then old(rows) - (set id | id in dead && parses(id) && outcome(id) == Accepted)
          else old(rows)
      ensures forall id :: id in old(rows) && id !in rows ==> id in dlq
      ensures old(dlq) <= dlq
    {
      var acked := PublishDeadLetters(dead, parses, outcome);
      if applied {
        rows := rows - set id | id in acked;
      }
    }

    /** One pruneBatchQuery: prunable rows, at most limit, skipping what other replicas hold; fewer
        than the limit only when no other is left. */
    method PruneBatch(cutoff: int, limit: nat, locked: set<Id>) returns (n: nat)
      modifies this`rows
      ensures n <= limit && rows.Keys <= old(rows.Keys) && |old(rows)| == |rows| + n
      ensures forall id :: id in rows ==> rows[id] == old(rows)[id]
      ensures forall id :: id in old(rows) && id !in rows ==> Prunable(old(rows)[id], cutoff) && id !in locked
      ensures n < limit ==> forall id :: id in rows && Prunable(rows[id], cutoff) ==> id in locked
    {
      n := 0;
      ghost var start := rows;
      var candidates := rows.Keys;
      while candidates != {} && n < limit
        invariant n <= limit && candidates <= rows.Keys <= start.Keys && |start| == |rows| + n
        invariant forall id :: id in rows ==> rows[id] == start[id]
        invariant forall id :: id in start && id !in rows ==> Prunable(start[id], cutoff) && id !in locked
        invariant forall id :: id in rows && id !in candidates && Prunable(rows[id], cutoff) ==> id in locked
        decreases candidates
      {
        var id :| id in candidates;
        candidates := candidates - {id};
        if Prunable(rows[id], cutoff) && id !in locked {
          ghost var before := rows;
          rows := rows - {id};
          assert before.Keys == rows.Keys + {id};
          n := n + 1;
        }
      }
    }

    /** Sweep: full batches follow one another until one comes back short, or one fails after some;
        locked says what other replicas hold during each batch.  The total is what left the table,
        and a finished sweep leaves nothing its last batch could have had. */
    method Sweep(now: int, retention: int, batchSize: nat, locked: nat -> set<Id>, batches: nat)
      returns (total: nat, ok: bool, ghost last: nat)
      requires batchSize > 0
      modifies this`rows
      ensures rows.Keys <= old(rows.Keys) && |old(rows)| == |rows| + total
      ensures forall id :: id in rows ==> rows[id] == old(rows)[id]
      ensures forall id :: id in old(rows) && id !in rows ==>
        && old(rows)[id].published.Some? && old(rows)[id].published.value + retention < now
        && exists k: nat :: k < batches && id !in locked(k)
      ensures ok ==> last < batches && last * batchSize <= total < last * batchSize + batchSize
      ensures ok ==> forall id :: id in rows && id !in locked(last) && rows[id].published.Some? ==>
        rows[id].published.value + retention >= now
      ensures !ok ==> total == batches * batchSize
    {
      var cutoff := now - retention;
      total, last := 0, 0;
      var done: nat := 0;
      while done < batches
        invariant done <= batches && total == done * batchSize
        invariant rows.Keys <= old(rows.Keys) && |old(rows)| == |rows| + total
        invariant forall id :: id in rows ==> rows[id] == old(rows)[id]
        invariant forall id :: id in old(rows) && id !in rows ==>
          Prunable(old(rows)[id], cutoff) && exists k: nat :: k < batches && id !in locked(k)
      {
        var n := PruneBatch(cutoff, batchSize, locked(done));
        total := total + n;
        if n < batchSize {
          return total, true, done;
        }
        done := done + 1;
      }
      ok := false;
    }
  }
}
