/** Runs of the search queue: what holds however its writers, its worker and durable removals
    interleave, and what the worker settles to. */
module SearchRuns {
  import opened Wrappers
  import opened SearchQueue

  /** The database and the index, and the durable removals whose call has succeeded. */
  datatype Sys = Sys(db: Db, removed: set<Key>)

  /** One atomic step. `DrainRow` is a row's read, call and mark in one; `StaleCall` and `StaleMark`
      are the two halves of draining a row that was read earlier, as `row`, and may have changed.
      `WriteDirectly` and `DeleteDirectly` are the calls that go to the index without a row. */
  datatype Step =
    | EnqueueRemoval(key: Key, now: int)
    | EnqueueUpsert(key: Key, document: Document, now: int)
    | DrainRow(key: Key, attempt: Attempt, now: int)
    | Delete(key: Key, call: Call)
    | ClearRemoval(key: Key)
    | StaleCall(key: Key, row: Row, call: Call)
    | StaleMark(key: Key, row: Row, attempt: Attempt, now: int)
    | WriteDirectly(key: Key, document: Document, call: Call)
    | DeleteDirectly(key: Key, call: Call)

  ghost predicate Enabled(s: Sys, step: Step) {
    match step
    case DrainRow(key, _, now) => key in s.db.rows && IsDue(s.db.rows[key], now)
    case ClearRemoval(key) => key in s.removed
    case _ => true
  }

  function Next(s: Sys, step: Step): Sys {
    match step
    case EnqueueRemoval(key, now) => s.(db := s.db.(rows := EnqueuedRemoval(s.db.rows, key, now)))
    case EnqueueUpsert(key, d, now) => s.(db := s.db.(rows := EnqueuedUpsert(s.db.rows, key, d, now)))
    case DrainRow(key, attempt, now) =>
      if key in s.db.rows then s.(db := DrainedRow(s.db, key, s.db.rows[key], attempt, now)) else s
    case Delete(key, call) =>
      Sys(s.db.(docs := WithDelete(s.db.docs, key, call)), if call.Done? then s.removed + {key} else s.removed)
    case ClearRemoval(key) => s.(db := s.db.(rows := MarkedRemoved(s.db.rows, key)))
    case StaleCall(key, row, call) => s.(db := s.db.(docs := Applied(s.db.docs, key, row, call)))
    case StaleMark(key, row, attempt, now) => s.(db := s.db.(rows := Recorded(s.db.rows, key, row, attempt, now)))
    case WriteDirectly(key, d, call) => s.(db := s.db.(docs := WithUpsert(s.db.docs, key, d, call)))
    case DeleteDirectly(key, call) => s.(db := s.db.(docs := WithDelete(s.db.docs, key, call)))
  }

  const START := Sys(Db(map[], map[]), {})

  /** Where the steps lead from a state. */
  function Onwards(s: Sys, steps: seq<Step>): Sys {
    if steps == [] then s else Next(Onwards(s, steps[..|steps| - 1]), steps[|steps| - 1])
  }

  function After(steps: seq<Step>): Sys { Onwards(START, steps) }

  /** A run: every step enabled where it is taken. */
  ghost predicate IsRun(steps: seq<Step>) {
    steps != [] ==> IsRun(steps[..|steps| - 1]) && Enabled(After(steps[..|steps| - 1]), steps[|steps| - 1])
  }

  predicate HasRemoval(rows: Rows, key: Key) {
    key in rows && rows[key].operation == Remove
  }

  // ..... A removal is never undone .....

  lemma StepKeepsRemoval(s: Sys, step: Step, key: Key)
    requires HasRemoval(s.db.rows, key)
    ensures HasRemoval(Next(s, step).db.rows, key)
  {
  }

  /** From any state and under every interleaving, stale halves included, once a removal is queued for a
      document it stays queued or done: no upsert ever takes its place. */
  lemma {:induction false} RemovalIsForGood(s: Sys, more: seq<Step>, key: Key)
    requires HasRemoval(s.db.rows, key)
    ensures HasRemoval(Onwards(s, more).db.rows, key)
    decreases |more|
  {
    hide Next;
    if more != [] {
      var n := |more| - 1;
      RemovalIsForGood(s, more[..n], key);
      StepKeepsRemoval(Onwards(s, more[..n]), more[n], key);
    }
  }

  // ..... What every row looks like .....

  /** An upsert has its document and a removal has none; a row is given up on at exactly the eighth
      failure and tried until then. */
  predicate WellFormed(row: Row) {
    && (row.operation == Upsert <==> row.document.Some?)
    && 0 <= row.attempts <= MAX_ATTEMPTS
    && (row.state == Pending ==> row.attempts < MAX_ATTEMPTS)
    && (row.state == Failed ==> row.attempts == MAX_ATTEMPTS)
  }

  /** A settled row and the index say the same: an upsert's document is there, a removal's is not. */
  predicate Agrees(docs: Docs, key: Key, row: Row) {
    row.state == Succeeded ==>
      match row.operation
      case Upsert => row.document.Some? && key in docs && docs[key] == row.document.value
      case Remove => key !in docs
  }

  ghost predicate Sound(s: Sys) {
    && (forall key :: key in s.db.rows ==> WellFormed(s.db.rows[key]) && Agrees(s.db.docs, key, s.db.rows[key]))
    && (forall key :: key in s.removed ==> HasRemoval(s.db.rows, key) && key !in s.db.docs)
  }

  /** Rows are drained whole; a durable removal calls the backend only once it is on record; and a direct
      write does not land on a row marked succeeded, nor between a durable removal's call and its mark,
      nor a direct deletion on an upsert marked succeeded. */
  ghost predicate Disciplined(s: Sys, step: Step) {
    var rows, key := s.db.rows, step.key;
    && Enabled(s, step)
    && !step.StaleCall? && !step.StaleMark?
    && (step.Delete? ==> HasRemoval(rows, key))
    && (step.WriteDirectly? ==> key !in s.removed && (key in rows ==> rows[key].state != Succeeded))
    && (step.DeleteDirectly? && key in rows ==> rows[key].operation == Remove || rows[key].state != Succeeded)
  }

  ghost predicate IsDisciplinedRun(steps: seq<Step>) {
    steps != [] ==>
      && IsDisciplinedRun(steps[..|steps| - 1])
      && Disciplined(After(steps[..|steps| - 1]), steps[|steps| - 1])
  }

  /** A step touches one key. */
  lemma OthersUntouched(s: Sys, step: Step, k: Key)
    requires k != step.key
    ensures var s' := Next(s, step);
      && (k in s.db.rows <==> k in s'.db.rows) && (k in s.db.rows ==> s'.db.rows[k] == s.db.rows[k])
      && (k in s.db.docs <==> k in s'.db.docs) && (k in s.db.docs ==> s'.db.docs[k] == s.db.docs[k])
      && (k in s.removed <==> k in s'.removed)
  {
    hide Backoff;
  }

  // What soundness says of one key.
  ghost predicate SoundAt(s: Sys, key: Key) {
    && (key in s.db.rows ==> WellFormed(s.db.rows[key]) && Agrees(s.db.docs, key, s.db.rows[key]))
    && (key in s.removed ==> HasRemoval(s.db.rows, key) && key !in s.db.docs)
  }

  lemma KeyKeepsSound(s: Sys, step: Step)
    requires SoundAt(s, step.key) && Disciplined(s, step)
    ensures SoundAt(Next(s, step), step.key)
  {
    hide Backoff;
  }

  lemma SameAgreement(docs: Docs, docs': Docs, k: Key, row: Row)
    requires (k in docs <==> k in docs') && (k in docs ==> docs'[k] == docs[k])
    ensures Agrees(docs, k, row) <==> Agrees(docs', k, row)
  {
  }

  /** The discipline, asked only of the steps that touch one document; of the others any may be the
      half of a stale drain. */
  ghost predicate IsDisciplinedOn(s: Sys, steps: seq<Step>, key: Key) {
    steps != [] ==>
      var before, last := steps[..|steps| - 1], steps[|steps| - 1];
      IsDisciplinedOn(s, before, key) && (last.key == key ==> Disciplined(Onwards(s, before), last))
  }

  lemma {:induction false} DisciplinedForEach(steps: seq<Step>, key: Key)
    requires IsDisciplinedRun(steps)
    ensures IsDisciplinedOn(START, steps, key)
    decreases |steps|
  {
    hide Disciplined, Onwards;
    if steps != [] { DisciplinedForEach(steps[..|steps| - 1], key); }
  }

  /** From any state in which it does, one document's row is well formed and agrees with the index for as
      long as the steps that touch that document are disciplined. */
  lemma {:induction false} KeyStaysSound(s: Sys, steps: seq<Step>, key: Key)
    requires SoundAt(s, key) && IsDisciplinedOn(s, steps, key)
    ensures SoundAt(Onwards(s, steps), key)
    decreases |steps|
  {
    hide WellFormed, Agrees, Next, Disciplined;
    if steps != [] {
      var before, last := Onwards(s, steps[..|steps| - 1]), steps[|steps| - 1];
      KeyStaysSound(s, steps[..|steps| - 1], key);
      if last.key == key {
        KeyKeepsSound(before, last);
      } else {
        OthersUntouched(before, last, key);
        if key in before.db.rows {
          SameAgreement(before.db.docs, Next(before, last).db.docs, key, before.db.rows[key]);
        }
      }
    }
  }

  /** An index may hold anything to begin with. */
  lemma AnyIndexIsSound(docs: Docs, key: Key)
    ensures SoundAt(Sys(Db(map[], docs), {}), key)
  {
  }

  lemma RunIsSound(steps: seq<Step>)
    requires IsDisciplinedRun(steps)
    ensures Sound(After(steps))
  {
    hide WellFormed, Agrees, IsDisciplinedRun, IsDisciplinedOn, Onwards;
    forall key
      ensures SoundAt(After(steps), key)
    {
      DisciplinedForEach(steps, key);
      KeyStaysSound(START, steps, key);
    }
    var s := After(steps);
    assert forall key :: key in s.db.rows ==> SoundAt(s, key);
    assert forall key :: key in s.removed ==> SoundAt(s, key);
  }

  /** Gone from the index, or with a removal on record that has not been marked done. */
  predicate AbsentOrOwed(db: Db, key: Key) {
    key in db.docs ==> HasRemoval(db.rows, key) && db.rows[key].state != Succeeded
  }

  /** That, and with a removal on record, so that no upsert can bring it back. */
  predicate WithdrawnOrOwed(db: Db, key: Key) { HasRemoval(db.rows, key) && AbsentOrOwed(db, key) }

  /** From any sound state, once a removal is on record the document is gone or the work is owed for as
      long as the steps on that document are disciplined, however stale the drains of every other are. */
  lemma RemovalHoldsToTheEnd(s: Sys, more: seq<Step>, key: Key)
    requires SoundAt(s, key) && HasRemoval(s.db.rows, key) && IsDisciplinedOn(s, more, key)
    ensures WithdrawnOrOwed(Onwards(s, more).db, key)
  {
    RemovalIsForGood(s, more, key);
    KeyStaysSound(s, more, key);
    var end := Onwards(s, more);
    assert Agrees(end.db.docs, key, end.db.rows[key]);
  }

  // ..... A direct write that comes late .....

  /** A write to the index that was under way when the removal was recorded, and lands now. The document
      is still gone or owed exactly when the removal is not marked done; and it stays so, whatever
      disciplined steps follow, exactly when no durable removal is about to mark it done either. */
  lemma LateWriteHarmlessIff(s: Sys, key: Key, d: Document, call: Call)
    requires SoundAt(s, key) && HasRemoval(s.db.rows, key) && !call.Refused?
    ensures var late := Next(s, WriteDirectly(key, d, call));
      && (WithdrawnOrOwed(late.db, key) <==> s.db.rows[key].state != Succeeded)
      && ((forall more {:trigger StaysWithdrawn(late, more, key)} :: StaysWithdrawn(late, more, key))
          <==> s.db.rows[key].state != Succeeded && key !in s.removed)
  {
    var late := Next(s, WriteDirectly(key, d, call));
    if s.db.rows[key].state != Succeeded && key !in s.removed {
      KeyKeepsSound(s, WriteDirectly(key, d, call));
      forall more
        ensures StaysWithdrawn(late, more, key)
      {
        if IsDisciplinedOn(late, more, key) { RemovalHoldsToTheEnd(late, more, key); }
      }
    } else if s.db.rows[key].state == Succeeded {
      assert !StaysWithdrawn(late, [], key);
    } else {
      var clear := [ClearRemoval(key)];
      assert clear[..0] == [] && IsDisciplinedOn(late, [], key) && Onwards(late, []) == late;
      assert IsDisciplinedOn(late, clear, key);
      assert Onwards(late, clear) == Next(late, ClearRemoval(key));
      assert !StaysWithdrawn(late, clear, key);
    }
  }

  ghost predicate StaysWithdrawn(s: Sys, more: seq<Step>, key: Key) {
    IsDisciplinedOn(s, more, key) ==> WithdrawnOrOwed(Onwards(s, more).db, key)
  }

  /** A document is removed durably, at once and with success, while a write of it is under way. */
  function LateWriteRun(key: Key, d: Document, now: int): seq<Step> {
    [EnqueueRemoval(key, now)] + [Delete(key, Done)] + [ClearRemoval(key)] + [WriteDirectly(key, d, Done)]
  }

  /** So this can happen: the removal is marked done, the document is in the index, and nothing is owed. */
  lemma LateWriteOutlivesRemoval(key: Key, d: Document, now: int)
    ensures IsRun(LateWriteRun(key, d, now))
    ensures var end := After(LateWriteRun(key, d, now));
      && HasRemoval(end.db.rows, key) && end.db.rows[key].state == Succeeded
      && key in end.db.docs && end.db.docs[key] == d
  {
    hide IsRun, After;
    EmptyRun();
    var one, two := [EnqueueRemoval(key, now)], [EnqueueRemoval(key, now)] + [Delete(key, Done)];
    OneStepMore([], EnqueueRemoval(key, now));
    assert [] + one == one;
    OneStepMore(one, Delete(key, Done));
    OneStepMore(two, ClearRemoval(key));
    OneStepMore(two + [ClearRemoval(key)], WriteDirectly(key, d, Done));
  }

  /** The steps a durable removal takes. */
  function RemovalSteps(backend: bool, key: Key, now: int, r: Removal): seq<Step> {
    [EnqueueRemoval(key, now)]
    + (if !backend then [] else [Delete(key, r.call)] + if r.call.Done? && r.cleared then [ClearRemoval(key)] else [])
  }

  /** A recorded durable removal is a run of the queue's own steps, disciplined for every document. */
  lemma RemovalIsRun(s: Sys, backend: bool, key: Key, now: int, r: Removal, other: Key)
    requires r.recorded
    ensures var steps := RemovalSteps(backend, key, now, r);
      && IsDisciplinedOn(s, steps, other)
      && Onwards(s, steps).db == RemovedDurably(s.db, backend, key, now, r)
      && HasRemoval(Onwards(s, steps).db.rows, key)
  {
    hide IsDisciplinedOn, Onwards;
    var first, second, third := EnqueueRemoval(key, now), Delete(key, r.call), ClearRemoval(key);
    NoStep(s, other);
    OneStepOn(s, [], first, other);
    var one := [] + [first];
    if backend {
      OneStepOn(s, one, second, other);
      var two := one + [second];
      if r.call.Done? && r.cleared {
        OneStepOn(s, two, third, other);
        assert two + [third] == RemovalSteps(backend, key, now, r);
      } else {
        assert two == RemovalSteps(backend, key, now, r);
      }
    } else {
      assert one == RemovalSteps(backend, key, now, r);
    }
  }

  lemma NoStep(s: Sys, key: Key)
    ensures IsDisciplinedOn(s, [], key) && Onwards(s, []) == s
  {
  }

  lemma OneStepOn(s: Sys, steps: seq<Step>, step: Step, key: Key)
    requires IsDisciplinedOn(s, steps, key) && Disciplined(Onwards(s, steps), step)
    ensures IsDisciplinedOn(s, steps + [step], key) && Onwards(s, steps + [step]) == Next(Onwards(s, steps), step)
  {
    assert (steps + [step])[..|steps|] == steps;
  }

  /** One run after another. */
  lemma {:induction false} OnwardsJoins(s: Sys, a: seq<Step>, b: seq<Step>, key: Key)
    ensures Onwards(s, a + b) == Onwards(Onwards(s, a), b)
    ensures IsDisciplinedOn(s, a + b, key) <==> IsDisciplinedOn(s, a, key) && IsDisciplinedOn(Onwards(s, a), b, key)
    decreases |b|
  {
    hide Next, Disciplined;
    if b == [] {
      assert a + b == a;
    } else {
      var n := |b| - 1;
      OnwardsJoins(s, a, b[..n], key);
      assert (a + b)[..|a| + n] == a + b[..n] && (a + b)[|a| + n] == b[n];
    }
  }

  // ..... Draining a batch is a run .....

  /** Every row of a batch, drained whole, in its order. */
  function DrainSteps(batch: seq<Key>, attempts: seq<Attempt>, now: int): seq<Step>
    requires |attempts| == |batch|
  {
    seq(|batch|, i requires 0 <= i < |batch| => DrainRow(batch[i], attempts[i], now))
  }

  function ReadRows(rows: Rows, keys: seq<Key>): seq<(Key, Row)>
    requires forall i :: 0 <= i < |keys| ==> keys[i] in rows
  {
    seq(|keys|, i requires 0 <= i < |keys| => (keys[i], rows[keys[i]]))
  }

  predicate Distinct(keys: seq<Key>) {
    forall i, j :: 0 <= i < j < |keys| ==> keys[i] != keys[j]
  }

  /** One key's row is the same in both states, or missing from both. */
  predicate SameRow(a: Sys, b: Sys, k: Key) {
    (k in b.db.rows <==> k in a.db.rows) && (k in a.db.rows ==> b.db.rows[k] == a.db.rows[k])
  }

  /** A pass of the worker that nothing disturbs, over a batch read at its start, is a run that drains each
      row whole, whatever the backend does and whichever outcomes are written. */
  lemma {:induction false} DrainIsRun(s: Sys, batch: seq<Key>, attempts: seq<Attempt>, now: int, key: Key)
    requires |attempts| == |batch| && Distinct(batch)
    requires forall i :: 0 <= i < |batch| ==> batch[i] in s.db.rows && IsDue(s.db.rows[batch[i]], now)
    ensures var steps := DrainSteps(batch, attempts, now);
      && Onwards(s, steps).db == Drained(s.db, ReadRows(s.db.rows, batch), attempts, now)
      && Onwards(s, steps).removed == s.removed
      && IsDisciplinedOn(s, steps, key)
      && forall k :: k !in batch ==> SameRow(s, Onwards(s, steps), k)
    decreases |batch|
  {
    hide DrainedRow, IsDue, Drained, Onwards, IsDisciplinedOn, Disciplined, Next;
    var steps, rows := DrainSteps(batch, attempts, now), ReadRows(s.db.rows, batch);
    if batch == [] {
      NoStep(s, key);
      NoneDrained(s, now);
    } else {
      var n := |batch| - 1;
      DrainIsRun(s, batch[..n], attempts[..n], now, key);
      assert steps[..n] == DrainSteps(batch[..n], attempts[..n], now) && steps == steps[..n] + [steps[n]];
      assert rows[..n] == ReadRows(s.db.rows, batch[..n]) && rows[..n + 1] == rows && attempts[..n + 1] == attempts;
      var before := Onwards(s, steps[..n]);
      assert batch[n] !in batch[..n];
      assert SameRow(s, before, batch[n]);
      hide SameRow;
      OneDrained(s, before, batch[n], attempts[n], now);
      OneStepOn(s, steps[..n], steps[n], key);
      DrainedStep(s.db, rows, attempts, now, n);
      OthersStay(s, before, steps[n], batch);
    }
  }

  lemma NoneDrained(s: Sys, now: int)
    ensures Drained(s.db, [], [], now) == s.db
    ensures forall k :: SameRow(s, s, k)
  {
  }

  lemma OthersStay(start: Sys, s: Sys, step: Step, batch: seq<Key>)
    requires batch != [] && step.key == batch[|batch| - 1]
    requires forall k :: k !in batch[..|batch| - 1] ==> SameRow(start, s, k)
    ensures forall k :: k !in batch ==> SameRow(start, Next(s, step), k)
  {
    hide Next;
    forall k | k !in batch
      ensures SameRow(start, Next(s, step), k)
    {
      assert SameRow(start, s, k);
      OthersUntouched(s, step, k);
    }
  }

  lemma OneDrained(start: Sys, s: Sys, key: Key, attempt: Attempt, now: int)
    requires key in start.db.rows && IsDue(start.db.rows[key], now)
    requires key in s.db.rows && s.db.rows[key] == start.db.rows[key]
    ensures Disciplined(s, DrainRow(key, attempt, now))
    ensures Next(s, DrainRow(key, attempt, now)).db == DrainedRow(s.db, key, start.db.rows[key], attempt, now)
    ensures Next(s, DrainRow(key, attempt, now)).removed == s.removed
  {
    hide DrainedRow;
  }

  /** The keys of a batch that the rows mark succeeded. */
  function DoneKeys(rows: Rows, batch: seq<Key>): set<Key> {
    set k | k in batch && k in rows && rows[k].state == Succeeded
  }

  /** What a pass reports is the number of its rows that it settled, when every outcome was written. */
  lemma {:induction false} DrainCounts(db: Db, batch: seq<Key>, attempts: seq<Attempt>, now: int)
    requires |attempts| == |batch| && Distinct(batch) && forall i :: 0 <= i < |batch| ==> attempts[i].recorded
    requires forall i :: 0 <= i < |batch| ==>
      batch[i] in db.rows && IsDue(db.rows[batch[i]], now) && Shaped(db.rows[batch[i]])
    ensures var rows := ReadRows(db.rows, batch);
      DoneIn(rows, attempts) == |DoneKeys(Drained(db, rows, attempts, now).rows, batch)|
    decreases |batch|
  {
    hide DrainedRow, IsDue, Drained, CountsAsDone, Shaped;
    var rows := ReadRows(db.rows, batch);
    if batch == [] {
      assert DoneKeys(Drained(db, rows, attempts, now).rows, batch) == {};
    } else {
      hide DoneIn;
      var n := |batch| - 1;
      DrainCounts(db, batch[..n], attempts[..n], now);
      assert rows[..n] == ReadRows(db.rows, batch[..n]) && rows[..n + 1] == rows && attempts[..n + 1] == attempts;
      DrainedStep(db, rows, attempts, now, n);
      var before := Drained(db, rows[..n], attempts[..n], now);
      StillAsRead(db, batch, attempts, now);
      DoneGrows(before, batch[..n], batch[n], attempts[n], now);
      assert batch[..n] + [batch[n]] == batch;
    }
  }

  // The last row of a batch is still as it was read when its turn comes.
  lemma StillAsRead(db: Db, batch: seq<Key>, attempts: seq<Attempt>, now: int)
    requires |attempts| == |batch| && Distinct(batch) && batch != []
    requires forall i :: 0 <= i < |batch| ==> batch[i] in db.rows && IsDue(db.rows[batch[i]], now)
    ensures var n := |batch| - 1;
      var before := Drained(db, ReadRows(db.rows, batch[..n]), attempts[..n], now);
      batch[n] in before.rows && before.rows[batch[n]] == db.rows[batch[n]]
  {
    hide Drained, IsDue, DrainedRow;
    var s, n := Sys(db, {}), |batch| - 1;
    DrainIsRun(s, batch[..n], attempts[..n], now, batch[n]);
    assert SameRow(s, Onwards(s, DrainSteps(batch[..n], attempts[..n], now)), batch[n]);
  }

  lemma DoneGrows(db: Db, prefix: seq<Key>, key: Key, attempt: Attempt, now: int)
    requires key in db.rows && IsDue(db.rows[key], now) && Shaped(db.rows[key]) && attempt.recorded && key !in prefix
    ensures |DoneKeys(DrainedRow(db, key, db.rows[key], attempt, now).rows, prefix + [key])|
         == |DoneKeys(db.rows, prefix)| + if CountsAsDone(db.rows[key], attempt) then 1 else 0
  {
    hide DrainedRow, CountsAsDone, Shaped, IsDue;
    var after := DrainedRow(db, key, db.rows[key], attempt, now);
    CountStep(db, key, attempt, now);
    forall k | k != key
      ensures (k in after.rows <==> k in db.rows) && (k in after.rows ==> after.rows[k] == db.rows[k])
    {
      OthersUntouched(Sys(db, {}), DrainRow(key, attempt, now), k);
    }
    var done := DoneKeys(db.rows, prefix);
    var mine: set<Key> := if CountsAsDone(db.rows[key], attempt) then {key} else {};
    assert DoneKeys(after.rows, prefix + [key]) == done + mine;
  }

  lemma CountStep(db: Db, key: Key, attempt: Attempt, now: int)
    requires key in db.rows && IsDue(db.rows[key], now) && Shaped(db.rows[key]) && attempt.recorded
    ensures var after := DrainedRow(db, key, db.rows[key], attempt, now);
      key in after.rows && (after.rows[key].state == Succeeded <==> CountsAsDone(db.rows[key], attempt))
  {
    hide Backoff;
  }

  // ..... The intent it refines .....

  /** What the enqueues asked for: a document to be found, or nothing to be found. */
  type Intent = map<Key, Option<Document>>

  function IntentOf(rows: Rows): Intent {
    map key | key in rows :: rows[key].document
  }

  function NextIntent(intent: Intent, step: Step): Intent {
    match step
    case EnqueueRemoval(key, _) => intent[key := None]
    case EnqueueUpsert(key, d, _) =>
      if key in intent && intent[key].None? then intent else intent[key := Some(d)]
    case _ => intent
  }

  /** What was asked for, enqueue by enqueue: once a removal, a removal for ever. */
  function IntentAfter(steps: seq<Step>): Intent {
    if steps == [] then map[] else NextIntent(IntentAfter(steps[..|steps| - 1]), steps[|steps| - 1])
  }

  /** An upsert has its document and a removal has none. */
  predicate Shaped(row: Row) { row.operation == Upsert <==> row.document.Some? }

  lemma StepKeepsShape(s: Sys, step: Step, key: Key)
    requires key in s.db.rows ==> Shaped(s.db.rows[key])
    ensures key in Next(s, step).db.rows ==> Shaped(Next(s, step).db.rows[key])
  {
    hide Backoff;
  }

  lemma {:induction false} RowsAreShaped(steps: seq<Step>, key: Key)
    ensures key in After(steps).db.rows ==> Shaped(After(steps).db.rows[key])
    decreases |steps|
  {
    hide Next, Shaped;
    if steps != [] {
      RowsAreShaped(steps[..|steps| - 1], key);
      StepKeepsShape(After(steps[..|steps| - 1]), steps[|steps| - 1], key);
    }
  }

  /** What the rows say is wanted of one key. */
  function WantedAt(rows: Rows, key: Key): Option<Option<Document>> {
    if key in rows then Some(rows[key].document) else None
  }

  // What one step does to one key's wish.
  function NextWanted(wanted: Option<Option<Document>>, step: Step): Option<Option<Document>> {
    match step
    case EnqueueRemoval(_, _) => Some(None)
    case EnqueueUpsert(_, d, _) => if wanted == Some(None) then wanted else Some(Some(d))
    case _ => wanted
  }

  lemma KeyRefinesIntent(s: Sys, step: Step)
    requires step.key in s.db.rows ==> Shaped(s.db.rows[step.key])
    ensures WantedAt(Next(s, step).db.rows, step.key) == NextWanted(WantedAt(s.db.rows, step.key), step)
  {
    hide Backoff;
  }

  lemma NextIntentIs(intent: Intent, step: Step, k: Key)
    ensures k != step.key ==>
      (k in NextIntent(intent, step) <==> k in intent) && (k in intent ==> NextIntent(intent, step)[k] == intent[k])
    ensures var before := if step.key in intent then Some(intent[step.key]) else None;
      var after := NextWanted(before, step);
      (step.key in NextIntent(intent, step) <==> after.Some?)
      && (after.Some? ==> NextIntent(intent, step)[step.key] == after.value)
  {
  }

  lemma StepRefinesIntent(s: Sys, step: Step)
    requires step.key in s.db.rows ==> Shaped(s.db.rows[step.key])
    ensures IntentOf(Next(s, step).db.rows) == NextIntent(IntentOf(s.db.rows), step)
  {
    hide Next, NextIntent, NextWanted, Shaped;
    var rows, rows' := s.db.rows, Next(s, step).db.rows;
    var intent := IntentOf(rows);
    KeyRefinesIntent(s, step);
    forall k
      ensures k in IntentOf(rows') <==> k in NextIntent(intent, step)
      ensures k in rows' ==> NextIntent(intent, step)[k] == rows'[k].document
    {
      NextIntentIs(intent, step, k);
      if k != step.key { OthersUntouched(s, step, k); }
    }
  }

  /** Every run, stale halves included, does to the intent exactly what its enqueues ask, and its other
      steps nothing. */
  lemma {:induction false} RunRefinesIntent(steps: seq<Step>)
    ensures IntentOf(After(steps).db.rows) == IntentAfter(steps)
    decreases |steps|
  {
    hide Shaped, Next, NextIntent;
    if steps != [] {
      var before, step := steps[..|steps| - 1], steps[|steps| - 1];
      RunRefinesIntent(before);
      RowsAreShaped(before, step.key);
      StepRefinesIntent(After(before), step);
    }
  }

  predicate Shows(docs: Docs, key: Key, wanted: Option<Document>) {
    match wanted
    case Some(d) => key in docs && docs[key] == d
    case None => key !in docs
  }

  /** Whatever the backend does, a row that is marked succeeded and is always drained whole has the index
      showing what was last asked for it, however stale the drains of every other row are. */
  lemma SettledRowsShowIntent(steps: seq<Step>, key: Key)
    requires IsDisciplinedOn(START, steps, key)
    requires var rows := After(steps).db.rows; key in rows && rows[key].state == Succeeded
    ensures key in IntentAfter(steps)
    ensures Shows(After(steps).db.docs, key, IntentAfter(steps)[key])
  {
    KeyStaysSound(START, steps, key);
    RunRefinesIntent(steps);
    assert key in IntentOf(After(steps).db.rows);
  }

  // ..... Where the discipline is needed .....

  /** Of one document, nothing but enqueues and the steps of durable removals; of every other document,
      anything. */
  predicate OnlyWriters(steps: seq<Step>, key: Key) {
    forall i :: 0 <= i < |steps| && steps[i].key == key ==>
      steps[i].EnqueueRemoval? || steps[i].EnqueueUpsert? || steps[i].Delete? || steps[i].ClearRemoval?
  }

  predicate RemovalQueued(steps: seq<Step>, key: Key) {
    exists i :: 0 <= i < |steps| && steps[i].key == key && steps[i].EnqueueRemoval?
  }

  predicate Deleted(steps: seq<Step>, key: Key) {
    exists i :: 0 <= i < |steps| && steps[i].key == key && steps[i].Delete? && !steps[i].call.Refused?
  }

  /** The document of the last upsert queued, `d` when there is none. */
  function LastAsked(steps: seq<Step>, key: Key, d: Document): Document {
    if steps == [] then d
    else
      var last := steps[|steps| - 1];
      if last.key == key && last.EnqueueUpsert? then last.document else LastAsked(steps[..|steps| - 1], key, d)
  }

  lemma LastStep(steps: seq<Step>, key: Key)
    requires steps != []
    ensures var before, last := steps[..|steps| - 1], steps[|steps| - 1];
      && (RemovalQueued(steps, key) <==> RemovalQueued(before, key) || (last.key == key && last.EnqueueRemoval?))
      && (Deleted(steps, key) <==> Deleted(before, key) || (last.key == key && last.Delete? && !last.call.Refused?))
      && (OnlyWriters(steps, key) ==> OnlyWriters(before, key))
  {
    var n := |steps| - 1;
    assert steps == steps[..n] + [steps[n]];
    if RemovalQueued(steps[..n], key) {
      var i :| 0 <= i < n && steps[..n][i].key == key && steps[..n][i].EnqueueRemoval?;
      assert steps[i].EnqueueRemoval?;
    }
    if Deleted(steps[..n], key) {
      var i :| 0 <= i < n && steps[..n][i].key == key && steps[..n][i].Delete? && !steps[..n][i].call.Refused?;
      assert steps[i].Delete?;
    }
    assert forall i :: 0 <= i < n ==> steps[..n][i] == steps[i];
  }

  // What is wanted of a document after its writers' steps.
  lemma {:induction false} WantedOnwards(s: Sys, steps: seq<Step>, key: Key)
    requires key in s.db.rows && Shaped(s.db.rows[key])
    ensures key in Onwards(s, steps).db.rows && Shaped(Onwards(s, steps).db.rows[key])
    ensures Onwards(s, steps).db.rows[key].document ==
      if s.db.rows[key].document.None? || RemovalQueued(steps, key) then None
      else Some(LastAsked(steps, key, s.db.rows[key].document.value))
    decreases |steps|
  {
    hide Backoff, Next, RemovalQueued;
    if steps == [] {
      assert !RemovalQueued([], key) by { NothingQueued(key); }
    } else {
      var n := |steps| - 1;
      var before, last := Onwards(s, steps[..n]), steps[n];
      WantedOnwards(s, steps[..n], key);
      LastStep(steps, key);
      StepKeepsShape(before, last, key);
      if last.key == key { KeyRefinesIntent(before, last); } else { OthersUntouched(before, last, key); }
    }
  }

  lemma NothingQueued(key: Key)
    ensures !RemovalQueued([], key) && !Deleted([], key)
  {
  }

  // What the index shows of a document after its writers' steps.
  lemma {:induction false} ShownOnwards(s: Sys, steps: seq<Step>, key: Key)
    requires OnlyWriters(steps, key)
    ensures var docs := Onwards(s, steps).db.docs;
      && (key in docs <==> key in s.db.docs && !Deleted(steps, key))
      && (key in docs ==> docs[key] == s.db.docs[key])
    decreases |steps|
  {
    hide Backoff, Deleted;
    if steps == [] {
      NothingQueued(key);
    } else {
      var n := |steps| - 1;
      LastStep(steps, key);
      ShownOnwards(s, steps[..n], key);
      if steps[n].key != key { OthersUntouched(Onwards(s, steps[..n]), steps[n], key); }
    }
  }

  /** A row is read, then its call succeeds and then it is marked, with any steps `before` the call and
      any `during` it: enqueues and durable removals of the same document, recorded or not, and
      whatever happens to the others. The row ends succeeded. It agrees with the index exactly when it
      was a removal; or when it was an upsert, its document was not deleted during the call, no removal
      was queued and nothing else was asked for last; or when it was deleted and a removal was queued. */
  lemma StaleMarkAgreesIff(s: Sys, key: Key, before: seq<Step>, during: seq<Step>, now: int)
    requires key in s.db.rows && Shaped(s.db.rows[key])
    requires OnlyWriters(before, key) && OnlyWriters(during, key)
    ensures var read, attempt := s.db.rows[key], Attempt(Done, true);
      var called := Next(Onwards(s, before), StaleCall(key, read, Done));
      var end := Next(Onwards(called, during), StaleMark(key, read, attempt, now));
      var removed := RemovalQueued(before, key) || RemovalQueued(during, key);
      && key in end.db.rows && end.db.rows[key].state == Succeeded
      && (Agrees(end.db.docs, key, end.db.rows[key]) <==>
            || read.operation == Remove
            || (Deleted(during, key) && removed)
            || (!Deleted(during, key) && !removed
                && LastAsked(during, key, LastAsked(before, key, read.document.value)) == read.document.value))
  {
    hide RemovalQueued, Deleted, LastAsked, Onwards, OnlyWriters;
    var read := s.db.rows[key];
    var called := Next(Onwards(s, before), StaleCall(key, read, Done));
    WantedOnwards(s, before, key);
    WantedOnwards(called, during, key);
    ShownOnwards(called, during, key);
  }

  /** The same with a call that fails: the failure is marked on whatever the row asks for by then, and
      gives up on it exactly when the row that was read was at its last attempt, even if what it asks
      for now has not been tried once. */
  lemma StaleFailureGivesUpIff(
    s: Sys, key: Key, before: seq<Step>, during: seq<Step>, call: Call, now: int)
    requires key in s.db.rows && Shaped(s.db.rows[key]) && !call.Done?
    ensures var read := s.db.rows[key];
      var called := Next(Onwards(s, before), StaleCall(key, read, call));
      var end := Next(Onwards(called, during), StaleMark(key, read, Attempt(call, true), now));
      && key in end.db.rows
      && end.db.rows[key].document ==
           (if read.document.None? || RemovalQueued(before, key) || RemovalQueued(during, key) then None
            else Some(LastAsked(during, key, LastAsked(before, key, read.document.value))))
      && end.db.rows[key].attempts == read.attempts + 1
      && (end.db.rows[key].state == Failed <==> read.attempts + 1 >= MAX_ATTEMPTS)
  {
    hide RemovalQueued, Deleted, LastAsked, Onwards, Backoff;
    var read := s.db.rows[key];
    var called := Next(Onwards(s, before), StaleCall(key, read, call));
    WantedOnwards(s, before, key);
    WantedOnwards(called, during, key);
  }

  /** A row is queued and read, a removal is queued, and then the row is drained as it was read. */
  function StaleRun(key: Key, d: Document, now: int): seq<Step> {
    var read := Row(Upsert, Some(d), Pending, 0, now);
    [EnqueueUpsert(key, d, now)] + [EnqueueRemoval(key, now)] + [StaleCall(key, read, Done)]
    + [StaleMark(key, read, Attempt(Done, true), now)]
  }

  /** The worker reads its batch before it makes any call, so this can happen: the row it read is the one
      the first step left, and the removal queued after that is marked succeeded with the document in
      the index. */
  lemma StaleUpsertOutlivesRemoval(key: Key, d: Document, now: int)
    ensures var steps := StaleRun(key, d, now);
      && IsRun(steps)
      && key in After(steps[..1]).db.rows
      && steps[2] == StaleCall(key, After(steps[..1]).db.rows[key], Done)
      && steps[3] == StaleMark(key, After(steps[..1]).db.rows[key], Attempt(Done, true), now)
      && key in After(steps).db.rows
      && After(steps).db.rows[key].operation == Remove && After(steps).db.rows[key].state == Succeeded
      && key in After(steps).db.docs
  {
    hide IsRun, After;
    var read := Row(Upsert, Some(d), Pending, 0, now);
    EmptyRun();
    OneStepMore([], EnqueueUpsert(key, d, now));
    var one := [EnqueueUpsert(key, d, now)];
    assert [] + one == one && StaleRun(key, d, now)[..1] == one;
    assert After(one).db.rows[key] == read;
    OneStepMore(one, EnqueueRemoval(key, now));
    var two := one + [EnqueueRemoval(key, now)];
    OneStepMore(two, StaleCall(key, read, Done));
    var three := two + [StaleCall(key, read, Done)];
    OneStepMore(three, StaleMark(key, read, Attempt(Done, true), now));
  }

  lemma EmptyRun()
    ensures IsRun([]) && After([]) == START
  {
  }

  lemma OneStepMore(steps: seq<Step>, step: Step)
    requires IsRun(steps) && Enabled(After(steps), step)
    ensures IsRun(steps + [step]) && After(steps + [step]) == Next(After(steps), step)
  {
    assert (steps + [step])[..|steps|] == steps;
  }

  /** A durable removal whose record failed but whose call worked keeps its row agreeing with the
      index exactly when the row was not a settled upsert. */
  lemma UnrecordedRemovalAgreesIff(s: Sys, key: Key, call: Call)
    requires Sound(s) && key in s.db.rows && !call.Refused?
    ensures Agrees(Next(s, Delete(key, call)).db.docs, key, s.db.rows[key])
       <==> !(s.db.rows[key].operation == Upsert && s.db.rows[key].state == Succeeded)
  {
  }

  // ..... A healthy backend settles the queue .....

  const HEALTHY := Attempt(Done, true)

  function Healthy(n: nat): seq<Attempt> { seq(n, _ => HEALTHY) }

  /** One pass of the worker over a batch, every call and every write working. */
  function HealthyPass(db: Db, batch: seq<Key>, now: int): Db
    requires forall i :: 0 <= i < |batch| ==> batch[i] in db.rows
  {
    Drained(db, ReadRows(db.rows, batch), Healthy(|batch|), now)
  }

  function PendingKeys(rows: Rows): set<Key> {
    set k | k in rows && rows[k].state == Pending
  }

  function PendingRemovals(rows: Rows): set<Key> {
    set k | k in rows && rows[k].state == Pending && rows[k].operation == Remove
  }

  predicate Undisturbed(db: Db, db': Db, k: Key) {
    && (k in db.rows <==> k in db'.rows) && (k in db.rows ==> db'.rows[k] == db.rows[k])
    && (k in db.docs <==> k in db'.docs) && (k in db.docs ==> db'.docs[k] == db.docs[k])
  }

  /** The row is marked succeeded, asks for what it asked for, and the index shows it. */
  predicate SettledKey(db: Db, db': Db, k: Key) {
    && k in db.rows && k in db'.rows
    && db.rows[k].state == Pending && db'.rows[k].state == Succeeded
    && WellFormed(db'.rows[k])
    && db'.rows[k].operation == db.rows[k].operation && db'.rows[k].document == db.rows[k].document
    && Shows(db'.docs, k, db.rows[k].document)
  }

  /** Exactly the keys drained are settled, and no other is touched. */
  ghost predicate Settling(db: Db, db': Db, done: seq<Key>) {
    forall k :: if k in done then SettledKey(db, db', k) else Undisturbed(db, db', k)
  }

  predicate Drainable(rows: Rows, key: Key) {
    key in rows && rows[key].state == Pending && WellFormed(rows[key])
  }

  lemma HealthyRow(db: Db, key: Key, now: int)
    requires Drainable(db.rows, key)
    ensures var after := DrainedRow(db, key, db.rows[key], HEALTHY, now);
      && SettledKey(db, after, key)
      && forall k :: k != key ==> Undisturbed(db, after, k)
  {
  }

  lemma {:induction false} PassPrefix(db: Db, batch: seq<Key>, now: int, n: nat)
    requires n <= |batch| && Distinct(batch)
    requires forall i :: 0 <= i < |batch| ==> batch[i] in db.rows && Drainable(db.rows, batch[i])
    ensures Settling(db, Drained(db, ReadRows(db.rows, batch)[..n], Healthy(|batch|)[..n], now), batch[..n])
    decreases n
  {
    hide WellFormed, SettledKey, Undisturbed, Shows, DrainedRow, Drained;
    var rows, attempts := ReadRows(db.rows, batch), Healthy(|batch|);
    if n == 0 {
      NothingDrained(db, now);
    } else {
      PassPrefix(db, batch, now, n - 1);
      DrainedStep(db, rows, attempts, now, n - 1);
      var before := Drained(db, rows[..n - 1], attempts[..n - 1], now);
      var key := batch[n - 1];
      SettlingStep(db, before, batch[..n - 1], key, now);
      assert batch[..n - 1] + [key] == batch[..n];
    }
  }

  lemma NothingDrained(db: Db, now: int)
    ensures Settling(db, Drained(db, [], [], now), [])
  {
  }

  lemma SettlingStep(db: Db, before: Db, done: seq<Key>, key: Key, now: int)
    requires Settling(db, before, done) && key !in done && Drainable(db.rows, key)
    ensures Settling(db, DrainedRow(before, key, db.rows[key], HEALTHY, now), done + [key])
  {
    hide DrainedRow, WellFormed, Shows;
    var after := DrainedRow(before, key, db.rows[key], HEALTHY, now);
    assert Undisturbed(db, before, key);
    HealthyRow(before, key, now);
    forall k
      ensures if k in done + [key] then SettledKey(db, after, k) else Undisturbed(db, after, k)
    {
      assert if k in done then SettledKey(db, before, k) else Undisturbed(db, before, k);
      if k != key {
        assert Undisturbed(before, after, k);
        StillShows(before.docs, after.docs, k, if k in db.rows then db.rows[k].document else None);
      }
    }
  }

  lemma StillShows(docs: Docs, docs': Docs, k: Key, wanted: Option<Document>)
    requires (k in docs <==> k in docs') && (k in docs ==> docs'[k] == docs[k])
    ensures Shows(docs, k, wanted) <==> Shows(docs', k, wanted)
  {
  }

  lemma PassSettles(db: Db, batch: seq<Key>, now: int)
    requires Distinct(batch)
    requires forall i :: 0 <= i < |batch| ==> batch[i] in db.rows && Drainable(db.rows, batch[i])
    ensures Settling(db, HealthyPass(db, batch, now), batch)
  {
    PassPrefix(db, batch, now, |batch|);
    assert ReadRows(db.rows, batch)[..|batch|] == ReadRows(db.rows, batch);
    assert Healthy(|batch|)[..|batch|] == Healthy(|batch|);
    assert batch[..|batch|] == batch;
  }

  function Elements(keys: seq<Key>): set<Key> {
    set k | k in keys
  }

  lemma {:induction false} DistinctSize(keys: seq<Key>)
    requires Distinct(keys)
    ensures |Elements(keys)| == |keys|
    decreases |keys|
  {
    if keys != [] {
      DistinctSize(keys[1..]);
      assert Elements(keys) == Elements(keys[1..]) + {keys[0]};
    } else {
      assert Elements(keys) == {};
    }
  }

  predicate AllDue(rows: Rows, now: int) {
    forall k :: k in PendingKeys(rows) ==> rows[k].due <= now
  }

  ghost predicate RowsWellFormed(rows: Rows) {
    forall k :: k in rows ==> WellFormed(rows[k])
  }

  /** Removals come first: a pass that touches an upsert has every due removal in it too. */
  lemma RemovalsFirst(rows: Rows, now: int, batch: seq<Key>, k: Key, l: Key)
    requires IsBatch(rows, now, batch)
    requires k in batch && k in rows && rows[k].operation == Upsert
    requires l in rows && IsDue(rows[l], now) && rows[l].operation == Remove
    ensures l in batch
  {
    assert l in DueKeys(rows, now);
    if l !in batch {
      assert Before(rows[l], rows[k]);
    }
  }

  /** Among rows of one kind no row is passed over for one that has been due for less long. */
  lemma LongestDueFirst(rows: Rows, now: int, batch: seq<Key>, k: Key, l: Key)
    requires IsBatch(rows, now, batch)
    requires k in batch && k in rows && l in rows && rows[k].operation == rows[l].operation
    requires IsDue(rows[l], now) && l !in batch
    ensures rows[k].due <= rows[l].due
  {
    assert l in DueKeys(rows, now);
    assert !Before(rows[l], rows[k]);
  }

  function Less(n: nat): nat { if n < BATCH then 0 else n - BATCH }

  lemma PassProgress(db: Db, batch: seq<Key>, now: int)
    requires RowsWellFormed(db.rows) && AllDue(db.rows, now) && IsBatch(db.rows, now, batch)
    ensures forall i :: 0 <= i < |batch| ==> batch[i] in db.rows && Drainable(db.rows, batch[i])
    ensures var after := HealthyPass(db, batch, now);
      && Settling(db, after, batch)
      && PendingKeys(after.rows) == PendingKeys(db.rows) - Elements(batch)
      && |PendingKeys(after.rows)| == Less(|PendingKeys(db.rows)|)
      && |PendingRemovals(after.rows)| <= Less(|PendingRemovals(db.rows)|)
  {
    hide HealthyPass, Before, WellFormed, Shows;
    assert forall i :: 0 <= i < |batch| ==> batch[i] in DueKeys(db.rows, now);
    PassSettles(db, batch, now);
    var after, done := HealthyPass(db, batch, now), Elements(batch);
    assert DueKeys(db.rows, now) == PendingKeys(db.rows);
    DistinctSize(batch);
    assert forall k :: k in done ==> k in PendingKeys(db.rows);
    SettlingPending(db, after, batch);
    RemovalProgress(db.rows, now, batch);
  }

  lemma SettlingPending(db: Db, after: Db, batch: seq<Key>)
    requires Settling(db, after, batch)
    ensures PendingKeys(after.rows) == PendingKeys(db.rows) - Elements(batch)
    ensures PendingRemovals(after.rows) == PendingRemovals(db.rows) - Elements(batch)
  {
    hide WellFormed, Shows;
    forall k
      ensures k in PendingKeys(after.rows) <==> k in PendingKeys(db.rows) - Elements(batch)
      ensures k in PendingRemovals(after.rows) <==> k in PendingRemovals(db.rows) - Elements(batch)
    {
      assert if k in batch then SettledKey(db, after, k) else Undisturbed(db, after, k);
    }
  }

  lemma RemovalProgress(rows: Rows, now: int, batch: seq<Key>)
    requires AllDue(rows, now) && IsBatch(rows, now, batch)
    ensures |PendingRemovals(rows) - Elements(batch)| <= Less(|PendingRemovals(rows)|)
  {
    var removals, done := PendingRemovals(rows), Elements(batch);
    DistinctSize(batch);
    if removals <= done {
      assert removals - done == {};
    } else {
      var l :| l in removals && l !in done;
      assert l in DueKeys(rows, now);
      forall k | k in done
        ensures k in DueKeys(rows, now) && k in removals
      {
        var i :| 0 <= i < |batch| && batch[i] == k;
        assert batch[i] in DueKeys(rows, now);
        if rows[k].operation == Upsert { RemovalsFirst(rows, now, batch, k, l); }
      }
      assert |batch| == BATCH by {
        if |DueKeys(rows, now)| < BATCH {
          SubsetSameSize(done, DueKeys(rows, now));
        }
      }
      assert done <= removals;
      assert |removals - done| == |removals| - |done|;
    }
  }

  lemma SubsetSameSize(a: set<Key>, b: set<Key>)
    requires a <= b && |a| == |b|
    ensures a == b
  {
    assert |b - a| == |b| - |a|;
    assert b - a == {};
  }

  /** Passes one after another, each over the batch the database then gives, at times from `now` on. */
  ghost predicate ArePasses(db: Db, batches: seq<seq<Key>>, times: seq<int>, now: int)
    requires |times| == |batches|
    decreases |batches|
  {
    batches != [] ==>
      && times[0] >= now
      && IsBatch(db.rows, times[0], batches[0])
      && (forall i :: 0 <= i < |batches[0]| ==> batches[0][i] in db.rows)
      && ArePasses(HealthyPass(db, batches[0], times[0]), batches[1..], times[1..], now)
  }

  ghost function AfterPasses(db: Db, batches: seq<seq<Key>>, times: seq<int>, now: int): Db
    requires |times| == |batches| && ArePasses(db, batches, times, now)
    decreases |batches|
  {
    if batches == [] then db
    else AfterPasses(HealthyPass(db, batches[0], times[0]), batches[1..], times[1..], now)
  }

  function LessBy(n: nat, passes: nat): nat {
    if n < passes * BATCH then 0 else n - passes * BATCH
  }

  /** Pending rows are left alone or settled, and nothing else is touched. */
  ghost predicate Progressed(db: Db, after: Db) {
    forall k :: Undisturbed(db, after, k) || SettledKey(db, after, k)
  }

  lemma ProgressJoins(db: Db, next: Db, after: Db, batch: seq<Key>)
    requires Settling(db, next, batch) && Progressed(next, after)
    ensures Progressed(db, after)
  {
    hide WellFormed, Shows;
    forall k
      ensures Undisturbed(db, after, k) || SettledKey(db, after, k)
    {
      assert if k in batch then SettledKey(db, next, k) else Undisturbed(db, next, k);
      assert Undisturbed(next, after, k) || SettledKey(next, after, k);
      if Undisturbed(next, after, k) {
        StillShows(next.docs, after.docs, k, if k in db.rows then db.rows[k].document else None);
      }
    }
  }

  lemma SettlingWellFormed(db: Db, next: Db, batch: seq<Key>)
    requires Settling(db, next, batch) && RowsWellFormed(db.rows)
    ensures RowsWellFormed(next.rows)
  {
    hide WellFormed, Shows;
    forall k | k in next.rows ensures WellFormed(next.rows[k]) {
      assert if k in batch then SettledKey(db, next, k) else Undisturbed(db, next, k);
    }
  }

  lemma {:induction false} PassesProgress(db: Db, batches: seq<seq<Key>>, times: seq<int>, now: int)
    requires |times| == |batches| && ArePasses(db, batches, times, now)
    requires RowsWellFormed(db.rows) && AllDue(db.rows, now)
    ensures var after := AfterPasses(db, batches, times, now);
      && |PendingKeys(after.rows)| == LessBy(|PendingKeys(db.rows)|, |batches|)
      && |PendingRemovals(after.rows)| <= LessBy(|PendingRemovals(db.rows)|, |batches|)
      && Progressed(db, after)
    decreases |batches|
  {
    hide WellFormed, Shows, HealthyPass, IsBatch, Settling, SettledKey;
    if batches != [] {
      assert AllDue(db.rows, times[0]);
      PassProgress(db, batches[0], times[0]);
      var next := HealthyPass(db, batches[0], times[0]);
      SettlingWellFormed(db, next, batches[0]);
      SettlingDue(db, next, batches[0], now);
      PassesProgress(next, batches[1..], times[1..], now);
      ProgressJoins(db, next, AfterPasses(next, batches[1..], times[1..], now), batches[0]);
    }
  }

  lemma SettlingDue(db: Db, next: Db, batch: seq<Key>, now: int)
    requires Settling(db, next, batch) && AllDue(db.rows, now)
    ensures AllDue(next.rows, now)
  {
    hide WellFormed, Shows;
    forall k | k in PendingKeys(next.rows) ensures next.rows[k].due <= now {
      assert if k in batch then SettledKey(db, next, k) else Undisturbed(db, next, k);
      assert k in PendingKeys(db.rows);
    }
  }

  /** From any state a run can reach: once every pending row is due and the backend works, enough
      passes over the queue, a hundred rows each, leave nothing pending, and every row that was
      pending or settled has the index showing what was last asked for it. Removals are through
      after as many passes as there are hundreds of them, however many upserts are waiting. */
  lemma HealthyPassesSettle(steps: seq<Step>, batches: seq<seq<Key>>, times: seq<int>, now: int)
    requires IsDisciplinedRun(steps)
    requires |times| == |batches| && ArePasses(After(steps).db, batches, times, now)
    requires AllDue(After(steps).db.rows, now)
    ensures var db, after := After(steps).db, AfterPasses(After(steps).db, batches, times, now);
      && (|PendingRemovals(db.rows)| <= 100 * |batches| ==> PendingRemovals(after.rows) == {})
      && (|PendingKeys(db.rows)| <= 100 * |batches| ==> PendingKeys(after.rows) == {})
      && (|PendingKeys(db.rows)| <= 100 * |batches| ==>
            forall k :: k in db.rows && db.rows[k].state != Failed ==>
              && k in IntentAfter(steps) && k in after.rows && after.rows[k].state == Succeeded
              && Shows(after.docs, k, IntentAfter(steps)[k]))
  {
    hide WellFormed, Shows, ArePasses, AfterPasses;
    var db := After(steps).db;
    RunIsSound(steps);
    RunRefinesIntent(steps);
    assert RowsWellFormed(db.rows);
    PassesProgress(db, batches, times, now);
    var after := AfterPasses(db, batches, times, now);
    if |PendingKeys(db.rows)| <= 100 * |batches| {
      forall k | k in db.rows && db.rows[k].state != Failed
        ensures k in IntentAfter(steps) && k in after.rows && after.rows[k].state == Succeeded
        ensures Shows(after.docs, k, IntentAfter(steps)[k])
      {
        assert k in IntentOf(db.rows);
        assert Undisturbed(db, after, k) || SettledKey(db, after, k);
        if Undisturbed(db, after, k) {
          assert k !in PendingKeys(after.rows);
          DisciplinedForEach(steps, k);
          SettledRowsShowIntent(steps, k);
          StillShows(db.docs, after.docs, k, IntentAfter(steps)[k]);
        }
      }
    }
  }
}
