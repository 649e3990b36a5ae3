/** The queue of work on the search index: two writers, the worker, and the durable removal. */
module SearchQueue {
  import opened Arithmetic
  import opened Wrappers

  type Document = string

  datatype Key = Key(index: string, id: string)

  datatype Operation = Upsert | Remove
  datatype RowState = Pending | Succeeded | Failed

  /** One row; the key is unique and rows are never deleted, so it also stands for the row's id. */
  datatype Row = Row(operation: Operation, document: Option<Document>, state: RowState, attempts: int, due: int)

  type Rows = map<Key, Row>
  type Docs = map<Key, Document>

  const MAX_ATTEMPTS := 8
  const BATCH := 100

  // ..... Backoff .....

  function Clamp(x: int, lo: int, hi: int): int { if x < lo then lo else if x > hi then hi else x }

  function Backoff(attempts: int): int {
    var seconds := 30 * Pow2(Clamp(attempts, 0, 6));
    if seconds > 3600 then 3600 else seconds
  }

  /** The delay doubles from thirty seconds and stops doubling at thirty-two minutes, for any stored
      count, so the one-hour cap is never what stops it. */
  lemma BackoffDoubles(attempts: int)
    ensures 30 <= Backoff(attempts) <= 1920
    ensures 0 <= attempts < 6 ==> Backoff(attempts + 1) == 2 * Backoff(attempts)
    ensures attempts >= 6 ==> Backoff(attempts) == 1920
  {
    assert Pow2(1) == 2 && Pow2(2) == 4 && Pow2(3) == 8;
    assert Pow2(4) == 16 && Pow2(5) == 32 && Pow2(6) == 64;
  }

  // ..... The writers .....

  function EnqueuedRemoval(rows: Rows, key: Key, now: int): Rows {
    rows[key := Row(Remove, None, Pending, 0, now)]
  }

  /** A row that is a removal stays as it is, in whatever state. */
  function EnqueuedUpsert(rows: Rows, key: Key, document: Document, now: int): Rows {
    if key in rows && rows[key].operation == Remove then rows
    else rows[key := Row(Upsert, Some(document), Pending, 0, now)]
  }

  class Queue {
    var rows: Rows

    constructor ()
      ensures rows == map[]
    {
      rows := map[];
    }

    /** The key's row becomes a fresh removal, whatever it was. */
    method EnqueueRemoval(key: Key, now: int)
      modifies this
      ensures rows == EnqueuedRemoval(old(rows), key, now)
    {
      if key !in rows {
        rows := rows[key := Row(Remove, None, Pending, 0, now)];
      } else {
        rows := rows[key := rows[key].(operation := Remove, document := None,
                                       state := Pending, attempts := 0, due := now)];
      }
    }

    /** The key's row becomes a fresh upsert, unless it is a removal. */
    method EnqueueUpsert(key: Key, document: Document, now: int)
      modifies this
      ensures rows == EnqueuedUpsert(old(rows), key, document, now)
    {
      if key !in rows {
        rows := rows[key := Row(Upsert, Some(document), Pending, 0, now)];
      } else if rows[key].operation != Remove {
        rows := rows[key := rows[key].(document := Some(document), state := Pending, attempts := 0, due := now)];
      }
    }

    method MarkSucceeded(key: Key)
      modifies this
      ensures rows == MarkedSucceeded(old(rows), key)
    {
      if key in rows {
        rows := rows[key := rows[key].(state := Succeeded, attempts := rows[key].attempts + 1)];
      }
    }

    method MarkFailed(key: Key, attempts: int, now: int)
      modifies this
      ensures rows == MarkedFailed(old(rows), key, attempts, now)
    {
      var next := attempts + 1;
      var exhausted := next >= MAX_ATTEMPTS;
      if key in rows {
        rows := rows[key := rows[key].(attempts := next, state := if exhausted then Failed else Pending,
                                       due := now + Backoff(next))];
      }
    }
  }

  function MarkedSucceeded(rows: Rows, key: Key): Rows {
    if key in rows then rows[key := rows[key].(state := Succeeded, attempts := rows[key].attempts + 1)] else rows
  }

  function MarkedFailed(rows: Rows, key: Key, attempts: int, now: int): Rows {
    if key in rows
    then rows[key := rows[key].(attempts := attempts + 1,
                                state := if attempts + 1 >= MAX_ATTEMPTS then Failed else Pending,
                                due := now + Backoff(attempts + 1))]
    else rows
  }

  // ..... The backend .....

  /** What a call came to: applied; not applied; or applied, with the answer lost. */
  datatype Call = Done | Refused | AnswerLost

  /** One row's turn: the backend's call, and whether its outcome could be written back. */
  datatype Attempt = Attempt(call: Call, recorded: bool)

  function WithUpsert(docs: Docs, key: Key, document: Document, call: Call): Docs {
    if call.Refused? then docs else docs[key := document]
  }

  function WithDelete(docs: Docs, key: Key, call: Call): Docs {
    if call.Refused? then docs else docs - {key}
  }

  class Index {
    var docs: Docs

    method Upsert(key: Key, document: Document, call: Call) returns (ok: bool)
      modifies this
      ensures docs == WithUpsert(old(docs), key, document, call) && ok == call.Done?
    {
      if !call.Refused? { docs := docs[key := document]; }
      ok := call.Done?;
    }

    method Delete(key: Key, call: Call) returns (ok: bool)
      modifies this
      ensures docs == WithDelete(old(docs), key, call) && ok == call.Done?
    {
      if !call.Refused? { docs := docs - {key}; }
      ok := call.Done?;
    }
  }

  // ..... Draining .....

  datatype Db = Db(rows: Rows, docs: Docs)

  predicate IsDue(row: Row, now: int) { row.state == Pending && row.due <= now }

  function DueKeys(rows: Rows, now: int): set<Key> {
    set k | k in rows && IsDue(rows[k], now)
  }

  /** Removals before upserts, and then the longer due first. */
  predicate Before(a: Row, b: Row) {
    (a.operation == Remove && b.operation == Upsert) || (a.operation == b.operation && a.due < b.due)
  }

  /** What the selection may return: a batch of distinct due rows, in order, none of them behind a
      due row that was left out. */
  ghost predicate IsBatch(rows: Rows, now: int, batch: seq<Key>) {
    var due := DueKeys(rows, now);
    && (forall i, j :: 0 <= i < j < |batch| ==> batch[i] != batch[j])
    && (forall i :: 0 <= i < |batch| ==> batch[i] in due)
    && |batch| == (if |due| < BATCH then |due| else BATCH)
    && (forall i, j :: 0 <= i < j < |batch| ==> !Before(rows[batch[j]], rows[batch[i]]))
    && (forall k, l :: k in due && k !in batch && l in batch ==> !Before(rows[k], rows[l]))
  }

  /** What the backend's part of draining a row as it was read does to the index. */
  function Applied(docs: Docs, key: Key, row: Row, call: Call): Docs {
    if row.operation == Remove then WithDelete(docs, key, call)
    else if row.document.Some? then WithUpsert(docs, key, row.document.value, call)
    else docs
  }

  /** How the outcome is written back to the row with that key, whatever it holds by then. */
  function Recorded(rows: Rows, key: Key, row: Row, attempt: Attempt, now: int): Rows {
    if !attempt.recorded then rows
    else if row.operation == Upsert && row.document.None? then MarkedFailed(rows, key, MAX_ATTEMPTS, now)
    else if attempt.call.Done? then MarkedSucceeded(rows, key)
    else MarkedFailed(rows, key, row.attempts, now)
  }

  /** One row drained, from reading it to writing its outcome back, with nothing in between. */
  function DrainedRow(db: Db, key: Key, row: Row, attempt: Attempt, now: int): Db {
    Db(Recorded(db.rows, key, row, attempt, now), Applied(db.docs, key, row, attempt.call))
  }

  function Drained(db: Db, batch: seq<(Key, Row)>, attempts: seq<Attempt>, now: int): Db
    requires |attempts| == |batch|
  {
    if batch == [] then db
    else
      var n := |batch| - 1;
      var before := Drained(db, batch[..n], attempts[..n], now);
      DrainedRow(before, batch[n].0, batch[n].1, attempts[n], now)
  }

  predicate CountsAsDone(row: Row, attempt: Attempt) {
    attempt.call.Done? && (row.operation == Remove || row.document.Some?)
  }

  function DoneIn(batch: seq<(Key, Row)>, attempts: seq<Attempt>): nat
    requires |attempts| == |batch|
  {
    if batch == [] then 0
    else
      var n := |batch| - 1;
      DoneIn(batch[..n], attempts[..n]) + if CountsAsDone(batch[n].1, attempts[n]) then 1 else 0
  }

  /** Drain a batch as it was read; the answer is how many calls succeeded. */
  method Drain(queue: Queue, search: Index?, batch: seq<(Key, Row)>, attempts: seq<Attempt>, now: int)
    returns (succeeded: nat)
    requires |attempts| == |batch|
    modifies queue, search
    ensures search == null ==> succeeded == 0 && queue.rows == old(queue.rows)
    ensures search != null ==>
      && Db(queue.rows, search.docs) == Drained(Db(old(queue.rows), old(search.docs)), batch, attempts, now)
      && succeeded == DoneIn(batch, attempts)
  {
    succeeded := 0;
    if search == null { return; }
    ghost var db := Db(queue.rows, search.docs);
    for i := 0 to |batch|
      invariant Db(queue.rows, search.docs) == Drained(db, batch[..i], attempts[..i], now)
      invariant succeeded == DoneIn(batch[..i], attempts[..i])
    {
      DrainedStep(db, batch, attempts, now, i);
      var (key, row) := batch[i];
      if row.operation == Upsert && row.document.None? {
        // Such a row is given up on at once, without a call.
        if attempts[i].recorded { queue.MarkFailed(key, MAX_ATTEMPTS, now); }
      } else {
        var ok;
        match row.operation {
          case Remove => ok := search.Delete(key, attempts[i].call);
          case Upsert => ok := search.Upsert(key, row.document.value, attempts[i].call);
        }
        if ok { succeeded := succeeded + 1; }
        if attempts[i].recorded {
          if ok {
            queue.MarkSucceeded(key);
          } else {
            queue.MarkFailed(key, row.attempts, now);
          }
        }
      }
    }
    assert batch[..|batch|] == batch && attempts[..|batch|] == attempts;
  }

  lemma DrainedStep(db: Db, batch: seq<(Key, Row)>, attempts: seq<Attempt>, now: int, i: nat)
    requires |attempts| == |batch| && i < |batch|
    ensures Drained(db, batch[..i + 1], attempts[..i + 1], now)
         == DrainedRow(Drained(db, batch[..i], attempts[..i], now), batch[i].0, batch[i].1, attempts[i], now)
    ensures DoneIn(batch[..i + 1], attempts[..i + 1])
         == DoneIn(batch[..i], attempts[..i]) + if CountsAsDone(batch[i].1, attempts[i]) then 1 else 0
  {
    assert batch[..i + 1][..i] == batch[..i] && attempts[..i + 1][..i] == attempts[..i];
  }

  // ..... The durable removal .....

  function MarkedRemoved(rows: Rows, key: Key): Rows {
    if key in rows && rows[key].operation == Remove then rows[key := rows[key].(state := Succeeded)] else rows
  }

  /** How a durable removal went: its record written, its call, and its record cleared. */
  datatype Removal = Removal(recorded: bool, call: Call, cleared: bool)

  function RemovedDurably(db: Db, backend: bool, key: Key, now: int, r: Removal): Db {
    var rows := if r.recorded then EnqueuedRemoval(db.rows, key, now) else db.rows;
    if !backend then Db(rows, db.docs)
    else Db(if r.call.Done? && r.cleared then MarkedRemoved(rows, key) else rows, WithDelete(db.docs, key, r.call))
  }

  /** The index's documents; none without a backend. */
  function DocsOf(search: Index?): Docs
    reads search
  {
    if search == null then map[] else search.docs
  }

  /** Record a removal, attempt it at once, and clear the record when the attempt worked. */
  method RemoveDurably(queue: Queue, search: Index?, key: Key, now: int, r: Removal)
    modifies queue, search
    ensures Db(queue.rows, DocsOf(search))
         == RemovedDurably(Db(old(queue.rows), old(DocsOf(search))), search != null, key, now, r)
  {
    if r.recorded {
      queue.EnqueueRemoval(key, now);
    }
    if search == null { return; }
    var ok := search.Delete(key, r.call);
    if ok && r.cleared && key in queue.rows && queue.rows[key].operation == Remove {
      queue.rows := queue.rows[key := queue.rows[key].(state := Succeeded)];
    }
  }
}
