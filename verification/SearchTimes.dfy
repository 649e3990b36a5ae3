/** When a failed operation of the search queue is tried again, after one failure and over whole runs. */
module SearchTimes {
  import opened Wrappers
  import opened Arithmetic
  import opened SearchQueue
  import opened SearchRuns

  // ..... After one step .....

  /** The seconds from the n-th failure to the next attempt. */
  const WAITS: seq<int> := [0, 60, 120, 240, 480, 960, 1920, 1920]

  lemma BackoffIs(n: nat)
    requires 1 <= n < 8
    ensures Backoff(n) == WAITS[n]
  {
    assert Pow2(1) == 2 && Pow2(2) == 4 && Pow2(3) == 8;
    assert Pow2(4) == 16 && Pow2(5) == 32 && Pow2(6) == 64;
  }

  /** A failure from `attempts` is due again once 60 * 2^attempts seconds have passed, from the fifth on
      once 1920 have, and never again from the seventh on; nothing else of the row changes. */
  lemma FailureDefers(rows: Rows, key: Key, attempts: nat, now: int, t: int)
    requires key in rows
    ensures var row := MarkedFailed(rows, key, attempts, now)[key];
      && row.attempts == attempts + 1 && row.operation == rows[key].operation && row.document == rows[key].document
      && (attempts < 5 ==> (IsDue(row, t) <==> t >= now + 60 * Pow2(attempts)))
      && (5 <= attempts < 7 ==> (IsDue(row, t) <==> t >= now + 1920))
      && (attempts >= 7 ==> row.state == Failed && !IsDue(row, t))
  {
    if attempts < 7 { BackoffIs(attempts + 1); }
    assert Pow2(0) == 1 && Pow2(1) == 2 && Pow2(2) == 4 && Pow2(3) == 8 && Pow2(4) == 16;
  }

  /** A removal is due from the moment it is queued, and so is an upsert that may take its row. */
  lemma EnqueueIsDue(rows: Rows, key: Key, document: Document, now: int, t: int)
    ensures IsDue(EnqueuedRemoval(rows, key, now)[key], t) <==> t >= now
    ensures !HasRemoval(rows, key) ==> (IsDue(EnqueuedUpsert(rows, key, document, now)[key], t) <==> t >= now)
  {
  }

  /** An upsert without a document is given up on at once, without a call, and is never due again. */
  lemma MissingDocumentGivenUp(db: Db, key: Key, attempt: Attempt, now: int, t: int)
    requires key in db.rows && db.rows[key].operation == Upsert && db.rows[key].document.None? && attempt.recorded
    ensures var after := DrainedRow(db, key, db.rows[key], attempt, now);
      after.docs == db.docs && after.rows[key].state == Failed && !IsDue(after.rows[key], t)
  {
    hide Backoff;
  }

  // ..... Over a run .....

  /** What the steps have done to one row since it was last reset: when that was, how many failures and
      how many outcomes of either kind the worker marked since, and when the last failure came, the reset
      counting as one. */
  datatype History = History(reset: int, failures: nat, marks: nat, last: int)

  /** A step starts the row's work anew: a removal always, an upsert as long as none was removed. */
  predicate Resets(before: seq<Step>, step: Step) {
    step.EnqueueRemoval? || (step.EnqueueUpsert? && !RemovalQueued(before, step.key))
  }

  predicate MarksFailure(step: Step) {
    step.DrainRow? && step.attempt.recorded && !step.attempt.call.Done?
  }

  predicate MarksSuccess(step: Step) {
    step.DrainRow? && step.attempt.recorded && step.attempt.call.Done?
  }

  function Moved(before: seq<Step>, step: Step, h: Option<History>): Option<History> {
    if Resets(before, step) then Some(History(step.now, 0, 0, step.now))
    else if h.None? then None
    else if MarksFailure(step)
    then Some(History(h.value.reset, h.value.failures + 1, h.value.marks + 1, step.now))
    else if MarksSuccess(step) then Some(h.value.(marks := h.value.marks + 1))
    else h
  }

  function Since(steps: seq<Step>, key: Key): Option<History> {
    if steps == [] then None
    else
      var before, step := steps[..|steps| - 1], steps[|steps| - 1];
      if step.key == key then Moved(before, step, Since(before, key)) else Since(before, key)
  }

  /** The row is pending and due exactly from its last failure plus the wait, or it is settled, or it
      was given up on at the eighth failure; its attempts are the outcomes marked. */
  ghost predicate FollowsHistory(row: Row, h: History) {
    && row.attempts == h.marks
    && match row.state
       case Pending => h.marks == h.failures < 8 && forall t :: IsDue(row, t) <==> t >= h.last + WAITS[h.failures]
       case Succeeded => forall t :: !IsDue(row, t)
       case Failed => h.failures == 8 && forall t :: !IsDue(row, t)
  }

  // The same with the due time itself.
  predicate DueAsMarked(row: Row, h: History) {
    && row.attempts == h.marks
    && match row.state
       case Pending => h.marks == h.failures < 8 && row.due == h.last + WAITS[h.failures]
       case Succeeded => true
       case Failed => h.failures == 8
  }

  lemma {:induction false} RemovalIffQueued(steps: seq<Step>, key: Key)
    requires IsDisciplinedOn(START, steps, key)
    ensures HasRemoval(After(steps).db.rows, key) <==> RemovalQueued(steps, key)
    decreases |steps|
  {
    hide Next, RemovalQueued, Disciplined;
    if steps == [] {
      NothingQueued(key);
    } else {
      hide HasRemoval;
      var n := |steps| - 1;
      RemovalIffQueued(steps[..n], key);
      LastStep(steps, key);
      RemovalStep(After(steps[..n]), steps[n], key);
    }
  }

  lemma RemovalStep(s: Sys, step: Step, key: Key)
    ensures HasRemoval(Next(s, step).db.rows, key)
       <==> HasRemoval(s.db.rows, key) || (step.key == key && step.EnqueueRemoval?)
  {
    hide Backoff;
  }

  /** In every run whose steps on the document are disciplined, its row is due exactly when its failures
      say. */
  lemma {:induction false} DueAsFailuresSay(steps: seq<Step>, key: Key)
    requires IsDisciplinedOn(START, steps, key)
    ensures Since(steps, key).Some? <==> key in After(steps).db.rows
    ensures key in After(steps).db.rows ==> DueAsMarked(After(steps).db.rows[key], Since(steps, key).value)
    decreases |steps|
  {
    hide Next, Disciplined, DueAsMarked, RemovalQueued;
    if steps != [] {
      var n := |steps| - 1;
      var s, step := After(steps[..n]), steps[n];
      DueAsFailuresSay(steps[..n], key);
      if step.key == key {
        KeyStaysSound(START, steps[..n], key);
        RemovalIffQueued(steps[..n], key);
        RowStep(s, steps[..n], step, Since(steps[..n], key));
      } else {
        OthersUntouched(s, step, key);
      }
    }
  }

  lemma RowStep(s: Sys, before: seq<Step>, step: Step, h: Option<History>)
    requires SoundAt(s, step.key) && Disciplined(s, step)
    requires HasRemoval(s.db.rows, step.key) <==> RemovalQueued(before, step.key)
    requires h.Some? <==> step.key in s.db.rows
    requires h.Some? ==> DueAsMarked(s.db.rows[step.key], h.value)
    ensures var after := Moved(before, step, h);
      && (after.Some? <==> step.key in Next(s, step).db.rows)
      && (after.Some? ==> DueAsMarked(Next(s, step).db.rows[step.key], after.value))
  {
    hide RemovalQueued, Backoff;
    if step.DrainRow? {
      var row := s.db.rows[step.key];
      assert row.state == Pending && row.attempts == h.value.marks == h.value.failures;
      if row.attempts < 7 { BackoffIs(row.attempts + 1); }
    }
  }

  lemma HistoryFollowed(row: Row, h: History)
    requires DueAsMarked(row, h)
    ensures FollowsHistory(row, h)
  {
  }

  /** Over whole runs: a row is due exactly from its last failure plus that failure's wait, and it is given
      up on exactly at the eighth failure since its last reset. */
  lemma RowFollowsHistory(steps: seq<Step>, key: Key)
    requires IsDisciplinedOn(START, steps, key) && key in After(steps).db.rows
    ensures Since(steps, key).Some?
    ensures FollowsHistory(After(steps).db.rows[key], Since(steps, key).value)
  {
    DueAsFailuresSay(steps, key);
    HistoryFollowed(After(steps).db.rows[key], Since(steps, key).value);
  }

  // ..... How long the attempts take altogether .....

  /** The seconds that n failures take at least. */
  function Waited(n: nat): int
    requires n < 8
  {
    if n == 0 then 0 else Waited(n - 1) + WAITS[n]
  }

  /** They are 60 * (2^n - 1) up to the sixth, and 5700 for the seventh. */
  lemma WaitedIs(n: nat)
    requires n < 8
    ensures Waited(n) == if n < 7 then 60 * (Pow2(n) - 1) else 5700
  {
    assert Waited(1) == 60 && Waited(2) == 180 && Waited(3) == 420;
    assert Waited(4) == 900 && Waited(5) == 1860 && Waited(6) == 3780 && Waited(7) == 5700;
    assert Pow2(0) == 1 && Pow2(1) == 2 && Pow2(2) == 4 && Pow2(3) == 8;
    assert Pow2(4) == 16 && Pow2(5) == 32 && Pow2(6) == 64;
  }

  // Every attempt waits for the one before it.
  lemma {:induction false} FailuresTakeTime(steps: seq<Step>, key: Key)
    requires IsDisciplinedOn(START, steps, key) && Since(steps, key).Some?
    ensures var h := Since(steps, key).value;
      h.failures > 0 ==> h.failures <= 8 && h.reset + Waited(h.failures - 1) <= h.last
    ensures Since(steps, key).value.failures == 0 ==> Since(steps, key).value.last == Since(steps, key).value.reset
    decreases |steps|
  {
    hide Next, Disciplined, DueAsMarked, Resets, Onwards;
    if steps != [] {
      var n := |steps| - 1;
      var step := steps[n];
      if Since(steps[..n], key).Some? { FailuresTakeTime(steps[..n], key); }
      if step.key == key && MarksFailure(step) && Since(steps[..n], key).Some? {
        DueAsFailuresSay(steps[..n], key);
        AttemptWaits(After(steps[..n]), step, Since(steps[..n], key).value);
      }
    }
  }

  lemma AttemptWaits(s: Sys, step: Step, h: History)
    requires step.DrainRow? && Disciplined(s, step) && DueAsMarked(s.db.rows[step.key], h)
    ensures h.failures < 8 && h.last + WAITS[h.failures] <= step.now
  {
  }

  /** An attempt comes no sooner than the waits of all failures since the last enqueue that reset the row,
      counted from that enqueue. */
  lemma AttemptsTakeTheirTime(steps: seq<Step>, attempt: Attempt, key: Key, now: int)
    requires IsDisciplinedOn(START, steps, key) && Enabled(After(steps), DrainRow(key, attempt, now))
    ensures Since(steps, key).Some?
    ensures var h := Since(steps, key).value;
      h.failures < 8 && now >= h.reset + if h.failures < 7 then 60 * (Pow2(h.failures) - 1) else 5700
  {
    hide Next, DueAsMarked;
    DueAsFailuresSay(steps, key);
    FailuresTakeTime(steps, key);
    var h := Since(steps, key).value;
    AttemptWaits(After(steps), DrainRow(key, attempt, now), h);
    WaitedIs(h.failures);
  }
}
