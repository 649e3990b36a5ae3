/** When a delivery may be claimed, after one failure and in every state of a timely run. */
module DeliveryTimes {
  import opened Wrappers
  import opened Arithmetic
  import opened Delivery

  /** A failed delivery whose retry was written may be claimed again exactly once sixty seconds doubled for
      each earlier failure have passed, and never again from the tenth failure on. */
  lemma RetryDefers(rows: Rows, claim: Claim, inboxCleared: bool, now: int, t: int)
    requires claim.id in rows && rows[claim.id].attempts == claim.attempts
    ensures var row := rows[claim.id];
      var after := Resolved(rows, claim, Retry, Writes(true, inboxCleared), now);
      && after.Keys == rows.Keys
      && (forall id :: id in rows && id != claim.id ==> after[id] == rows[id])
      && after[claim.id] == row.(attempts := row.attempts + 1, nextRetry := after[claim.id].nextRetry)
      && (Claimable(after[claim.id], t) <==> row.attempts < 9 && t >= now + 60 * Pow2(row.attempts))
  {
    if claim.attempts < 10 { DelayRange(claim.attempts); }
  }

  /** A due row left out of a batch is behind fifty others that have been due for at least as long. */
  lemma LeftOutBehindFifty(rows: Rows, now: int, batch: seq<Id>, id: Id)
    requires IsClaimBatch(rows, now, batch)
    requires id in rows && Claimable(rows[id], now) && id !in batch
    ensures |batch| == 50
    ensures forall i :: 0 <= i < |batch| ==> batch[i] in rows && rows[batch[i]].nextRetry <= rows[id].nextRetry
  {
    var due := set k | k in rows && Claimable(rows[k], now);
    assert |due - {id}| == |due| - 1;
    if |due| < 50 {
      var taken := set k | k in batch;
      Distinct(batch);
      assert taken <= due - {id} by {
        forall k | k in taken
          ensures k in due - {id}
        {
          var i :| 0 <= i < |batch| && batch[i] == k;
        }
      }
      Smaller(taken, due - {id});
    }
  }

  lemma {:induction false} Distinct(batch: seq<Id>)
    requires forall i, j :: 0 <= i < j < |batch| ==> batch[i] != batch[j]
    ensures |set k | k in batch| == |batch|
    decreases |batch|
  {
    var all := set k | k in batch;
    if batch == [] {
      assert all == {};
    } else {
      var n := |batch| - 1;
      Distinct(batch[..n]);
      assert batch == batch[..n] + [batch[n]];
      assert all == (set k | k in batch[..n]) + {batch[n]};
    }
  }

  lemma Smaller(a: set<Id>, b: set<Id>)
    requires a <= b
    ensures |a| <= |b|
  {
    assert b == a + (b - a);
  }

  // ..... Over a run .....

  /** Since when a row may be claimed, and how often it has failed. */
  datatype Course = Course(ready: int, failures: nat)

  /** What a step does to that: a new row is ready at once; a claim takes it away for an hour; a failure
      written back makes it wait sixty seconds doubled for each earlier one. */
  function Moved(s: Sys, step: Step, id: Id, before: Option<Course>): Option<Course> {
    match step
    case Enqueue(_, _) => if id == s.nextId then Some(Course(s.now, 0)) else before
    case TakeRow(taken) =>
      if taken == id && before.Some? then Some(Course(s.now + 3600, before.value.failures)) else before
    case Resolve(token, outcome, writes) =>
      if token in s.claims && s.claims[token].id == id && outcome.Retry? && writes.own && before.Some?
      then Some(Course(s.now + 60 * Pow2(before.value.failures), before.value.failures + 1))
      else before
    case _ => before
  }

  function CourseOf(states: seq<Sys>, steps: seq<Step>, k: nat, id: Id): Option<Course>
    requires |states| == |steps| + 1 && k <= |steps|
  {
    if k == 0 then None else Moved(states[k - 1], steps[k - 1], id, CourseOf(states, steps, k - 1, id))
  }

  predicate OnCourse(s: Sys, id: Id, course: Option<Course>) {
    id in s.rows ==>
      course.Some? && s.rows[id].attempts == course.value.failures && s.rows[id].nextRetry == course.value.ready
  }

  lemma StepOnCourse(s: Sys, step: Step, id: Id, course: Option<Course>)
    requires Invariant(s) && Enabled(s, step) && OnCourse(s, id, course)
    ensures OnCourse(Next(s, step), id, Moved(s, step, id, course))
  {
    hide Delay, Pow2;
    match step {
      case Resolve(token, outcome, writes) =>
        assert ClaimOk(s.rows, s.claims[token]);
        DelayRange(s.claims[token].attempts);
      case _ =>
    }
  }

  lemma {:induction false} RunOnCourse(states: seq<Sys>, steps: seq<Step>, k: nat, id: Id)
    requires IsRun(states, steps) && k <= |steps|
    requires forall j :: 0 <= j < k ==> Timely(states[j])
    ensures OnCourse(states[k], id, CourseOf(states, steps, k, id))
    decreases k
  {
    hide Next, Moved, Invariant, Timely;
    if k > 0 {
      hide OnCourse;
      RunOnCourse(states, steps, k - 1, id);
      RunKeeps(states, steps, k - 1);
      StepOnCourse(states[k - 1], steps[k - 1], id, CourseOf(states, steps, k - 1, id));
    }
  }

  /** In every timely run, at every point, a row may be claimed exactly from the time that its own history
      says, as long as fewer than ten failures of it are recorded. */
  lemma ClaimableExactlyFrom(states: seq<Sys>, steps: seq<Step>, k: nat, id: Id, t: int)
    requires IsRun(states, steps) && k <= |steps|
    requires forall j :: 0 <= j < k ==> Timely(states[j])
    requires id in states[k].rows
    ensures CourseOf(states, steps, k, id).Some?
    ensures var c := CourseOf(states, steps, k, id).value;
      Claimable(states[k].rows[id], t) <==> c.failures < 10 && t >= c.ready
  {
    RunOnCourse(states, steps, k, id);
  }
}
