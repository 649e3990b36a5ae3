/** The outbound delivery queue: claiming by lease, resolving, and retrying with backoff.
    Times are seconds. */
module Delivery {
  import opened Arithmetic

  type Id = int

  datatype Row = Row(actor: string, inbox: string, attempts: int, nextRetry: int, created: int)

  type Rows = map<Id, Row>

  const MAX_ATTEMPTS := 10
  const CLAIM_LIMIT := 50
  const LEASE := 3600
  const MAX_BACKOFF := 7 * 24 * 3600

  /** How a claimed delivery came out. `Retry` is every failure that may pass: credentials, signing,
      transport, or a status other than success and 410. */
  datatype Outcome = Delivered | Gone | RefusedInbox | Retry

  // ..... Statements .....

  predicate Claimable(row: Row, now: int) { row.nextRetry <= now && row.attempts < MAX_ATTEMPTS }

  /** What the claim may select: claimable rows, the longest due first, as many as the limit. */
  ghost predicate IsClaimBatch(rows: Rows, now: int, batch: seq<Id>) {
    var due := set id | id in rows && Claimable(rows[id], now);
    && (forall i, j :: 0 <= i < j < |batch| ==> batch[i] != batch[j])
    && (forall i :: 0 <= i < |batch| ==> batch[i] in due)
    && |batch| == (if |due| < CLAIM_LIMIT then |due| else CLAIM_LIMIT)
    && (forall i, id :: 0 <= i < |batch| && id in due && id !in batch ==>
          rows[batch[i]].nextRetry <= rows[id].nextRetry)
  }

  function Leased(rows: Rows, id: Id, now: int): Rows {
    if id in rows then rows[id := rows[id].(nextRetry := now + LEASE)] else rows
  }

  function AllLeased(rows: Rows, batch: seq<Id>, now: int): Rows {
    if batch == [] then rows else Leased(AllLeased(rows, batch[..|batch| - 1], now), batch[|batch| - 1], now)
  }

  function Delay(attempts: nat): int {
    var backoff := 60 * Pow2(attempts);
    if backoff < MAX_BACKOFF then backoff else MAX_BACKOFF
  }

  function Rescheduled(rows: Rows, id: Id, attempts: nat, now: int): Rows {
    if id in rows then rows[id := rows[id].(attempts := rows[id].attempts + 1, nextRetry := now + Delay(attempts))]
    else rows
  }

  function WithoutInbox(rows: Rows, inbox: string): Rows {
    map id | id in rows && rows[id].inbox != inbox :: rows[id]
  }

  function WithoutActor(rows: Rows, actor: string): Rows {
    map id | id in rows && rows[id].actor != actor :: rows[id]
  }

  /** Which of an outcome's writes reach the database: that to the row itself, and, for a 410, that to
      every row of its inbox. */
  datatype Writes = Writes(own: bool, inbox: bool)

  /** What resolving a delivery claimed as `claim` does to the queue. */
  function Resolved(rows: Rows, claim: Claim, outcome: Outcome, writes: Writes, now: int): Rows {
    var own :=
      if !writes.own then rows
      else if outcome.Retry? then Rescheduled(rows, claim.id, claim.attempts, now)
      else rows - {claim.id};
    if outcome.Gone? && writes.inbox then WithoutInbox(own, claim.inbox) else own
  }

  /** A row as a worker took it. */
  datatype Claim = Claim(id: Id, inbox: string, attempts: nat, at: int)

  class Queue {
    var rows: Rows
    var nextId: Id

    constructor ()
      ensures rows == map[] && nextId == 0
    {
      rows, nextId := map[], 0;
    }

    method Enqueue(actor: string, inbox: string, now: int) returns (id: Id)
      modifies this
      ensures id == old(nextId) && nextId == id + 1
      ensures rows == old(rows)[id := Row(actor, inbox, 0, now, now)]
    {
      id := nextId;
      rows := rows[id := Row(actor, inbox, 0, now, now)];
      nextId := nextId + 1;
    }

    /** Claim a batch by pushing each row's next retry an hour on. */
    method ClaimBatch(batch: seq<Id>, now: int) returns (claims: seq<Claim>)
      requires IsClaimBatch(rows, now, batch)
      requires forall id :: id in rows ==> rows[id].attempts >= 0
      modifies this`rows
      ensures rows == AllLeased(old(rows), batch, now)
      ensures |claims| == |batch|
      ensures forall i :: 0 <= i < |batch| ==>
        && batch[i] in old(rows)
        && claims[i] == Claim(batch[i], old(rows)[batch[i]].inbox, old(rows)[batch[i]].attempts, now)
    {
      claims := [];
      ghost var before := rows;
      assert forall i :: 0 <= i < |batch| ==> batch[i] in rows;
      assert forall i, j :: 0 <= i < j < |batch| ==> batch[i] != batch[j];
      hide IsClaimBatch;
      for i := 0 to |batch|
        invariant rows == AllLeased(before, batch[..i], now)
        invariant rows.Keys == before.Keys
        invariant forall j :: i <= j < |batch| ==> rows[batch[j]] == before[batch[j]]
        invariant |claims| == i
        invariant forall j :: 0 <= j < i ==>
          claims[j] == Claim(batch[j], before[batch[j]].inbox, before[batch[j]].attempts, now)
      {
        var row := rows[batch[i]];
        claims := claims + [Claim(batch[i], row.inbox, row.attempts, now)];
        rows := rows[batch[i] := row.(nextRetry := now + LEASE)];
        assert batch[..i + 1][..i] == batch[..i];
      }
      assert batch[..|batch|] == batch;
    }

    /** Write a delivery's outcome back, as far as its writes reach the database. */
    method Resolve(claim: Claim, outcome: Outcome, writes: Writes, now: int)
      modifies this`rows
      ensures rows == Resolved(old(rows), claim, outcome, writes, now)
    {
      match outcome
      case Delivered =>
        if writes.own { rows := rows - {claim.id}; }
      case RefusedInbox =>
        if writes.own { rows := rows - {claim.id}; }
      case Gone =>
        if writes.own { rows := rows - {claim.id}; }
        if writes.inbox { rows := map id | id in rows && rows[id].inbox != claim.inbox :: rows[id]; }
      case Retry =>
        if writes.own { ScheduleRetry(claim.id, claim.attempts, now); }
    }

    method ScheduleRetry(id: Id, attempts: nat, now: int)
      modifies this`rows
      ensures rows == Rescheduled(old(rows), id, attempts, now)
    {
      var backoff := 60 * Pow2(attempts);
      var delay := if backoff < MAX_BACKOFF then backoff else MAX_BACKOFF;
      if id in rows {
        rows := rows[id := rows[id].(attempts := rows[id].attempts + 1, nextRetry := now + delay)];
      }
    }
  }

  // ..... Runs .....

  /** The queue, the deliveries claimed and not yet resolved under the tokens that identify them, and
      the clock. */
  datatype Sys = Sys(rows: Rows, claims: map<nat, Claim>, nextId: Id, nextToken: nat, now: int)

  /** One atomic step; a batch is claimed row by row here, all at one time. An abandoned claim is a
      worker that died. */
  datatype Step =
    | Enqueue(actor: string, inbox: string)
    | TakeRow(id: Id)
    | Resolve(token: nat, outcome: Outcome, writes: Writes)
    | Abandon(token: nat)
    | EraseActor(actor: string)
    | Tick(later: nat)

  predicate Enabled(s: Sys, step: Step) {
    match step
    case TakeRow(id) => id in s.rows && Claimable(s.rows[id], s.now) && s.rows[id].attempts >= 0
    case Resolve(token, _, _) => token in s.claims
    case Abandon(token) => token in s.claims
    case _ => true
  }

  function Next(s: Sys, step: Step): Sys
    requires Enabled(s, step)
  {
    match step
    case Enqueue(actor, inbox) =>
      s.(rows := s.rows[s.nextId := Row(actor, inbox, 0, s.now, s.now)], nextId := s.nextId + 1)
    case TakeRow(id) =>
      s.(rows := Leased(s.rows, id, s.now),
         claims := s.claims[s.nextToken := Claim(id, s.rows[id].inbox, s.rows[id].attempts, s.now)],
         nextToken := s.nextToken + 1)
    case Resolve(token, outcome, writes) =>
      s.(rows := Resolved(s.rows, s.claims[token], outcome, writes, s.now),
         claims := s.claims - {token})
    case Abandon(token) => s.(claims := s.claims - {token})
    case EraseActor(actor) => s.(rows := WithoutActor(s.rows, actor))
    case Tick(later) => s.(now := s.now + later)
  }

  /** Every claimed delivery is resolved, or its worker gone, in under an hour. */
  predicate Timely(s: Sys) {
    forall t :: t in s.claims ==> s.now < s.claims[t].at + LEASE
  }

  ghost predicate IsRun(states: seq<Sys>, steps: seq<Step>) {
    && |states| == |steps| + 1
    && states[0] == Sys(map[], map[], 0, 0, 0)
    && (forall k :: 0 <= k < |steps| ==> Enabled(states[k], steps[k]) && states[k + 1] == Next(states[k], steps[k]))
  }

  predicate RowOk(row: Row, now: int) {
    && 0 <= row.attempts <= MAX_ATTEMPTS
    && row.created <= now
    && row.nextRetry >= row.created + 60 * (Pow2(row.attempts) - 1)
  }

  /** What a claim knows of its row while the row is there. */
  predicate ClaimOk(rows: Rows, c: Claim) {
    && c.attempts < MAX_ATTEMPTS
    && (c.id in rows ==>
          && rows[c.id].nextRetry == c.at + LEASE
          && rows[c.id].attempts == c.attempts
          && rows[c.id].inbox == c.inbox
          && c.at >= rows[c.id].created + 60 * (Pow2(c.attempts) - 1))
  }

  ghost predicate Invariant(s: Sys) {
    && (forall id :: id in s.rows ==> id < s.nextId && RowOk(s.rows[id], s.now))
    && (forall t :: t in s.claims ==>
          t < s.nextToken && s.claims[t].id < s.nextId && s.claims[t].at <= s.now && ClaimOk(s.rows, s.claims[t]))
    && (forall t, u :: t in s.claims && u in s.claims && t != u ==> s.claims[t].id != s.claims[u].id)
  }

  lemma Powers()
    ensures Pow2(0) == 1 && Pow2(1) == 2 && Pow2(2) == 4 && Pow2(3) == 8 && Pow2(4) == 16
    ensures Pow2(5) == 32 && Pow2(6) == 64 && Pow2(7) == 128 && Pow2(8) == 256 && Pow2(9) == 512
    ensures Pow2(10) == 1024
  {
    assert Pow2(3) == 8;
    assert Pow2(6) == 64;
    assert Pow2(8) == 256;
  }

  /** Every delay a run can ask for is sixty seconds doubled once for each earlier failure, between
      one minute and 30 720 seconds; the seven-day cap never binds. */
  lemma DelayRange(attempts: nat)
    requires attempts < MAX_ATTEMPTS
    ensures Delay(attempts) == 60 * Pow2(attempts)
    ensures 60 <= Delay(attempts) <= 30720
  {
    Powers();
  }

  // A claimed row is not claimable while its claim stands.
  lemma LeaseHolds(s: Sys, t: nat)
    requires Invariant(s) && Timely(s) && t in s.claims && s.claims[t].id in s.rows
    ensures !Claimable(s.rows[s.claims[t].id], s.now)
  {
  }

  lemma TakeKeeps(s: Sys, id: Id)
    requires Invariant(s) && Timely(s) && Enabled(s, TakeRow(id))
    ensures Invariant(Next(s, TakeRow(id)))
  {
    hide Pow2;
    forall t | t in s.claims
      ensures s.claims[t].id != id
    {
      if s.claims[t].id in s.rows { LeaseHolds(s, t); }
    }
  }

  lemma RetryKeepsRow(row: Row, c: Claim, now: int)
    requires RowOk(row, now) && row.attempts == c.attempts < MAX_ATTEMPTS && c.at <= now
    requires c.at >= row.created + 60 * (Pow2(c.attempts) - 1)
    ensures RowOk(row.(attempts := row.attempts + 1, nextRetry := now + Delay(c.attempts)), now)
  {
    DelayRange(c.attempts);
    assert Pow2(c.attempts + 1) == 2 * Pow2(c.attempts);
  }

  lemma ResolveKeeps(s: Sys, token: nat, outcome: Outcome, writes: Writes)
    requires Invariant(s) && token in s.claims
    ensures Invariant(Next(s, Resolve(token, outcome, writes)))
  {
    hide Pow2, RowOk, Delay;
    var c := s.claims[token];
    if c.id in s.rows {
      assert RowOk(s.rows[c.id], s.now) && ClaimOk(s.rows, c);
      AttemptsOf(s.rows[c.id], s.now);
      RetryKeepsRow(s.rows[c.id], c, s.now);
    }
  }

  lemma AttemptsOf(row: Row, now: int)
    requires RowOk(row, now)
    ensures 0 <= row.attempts <= MAX_ATTEMPTS
  {
  }

  lemma StepKeeps(s: Sys, step: Step)
    requires Invariant(s) && Timely(s) && Enabled(s, step)
    ensures Invariant(Next(s, step))
  {
    match step
    case TakeRow(id) => TakeKeeps(s, id);
    case Resolve(token, outcome, writes) => ResolveKeeps(s, token, outcome, writes);
    case _ =>
  }

  lemma {:induction false} RunKeeps(states: seq<Sys>, steps: seq<Step>, k: nat)
    requires IsRun(states, steps) && k < |states|
    requires forall j :: 0 <= j < k ==> Timely(states[j])
    ensures Invariant(states[k])
    decreases k
  {
    if k > 0 {
      RunKeeps(states, steps, k - 1);
      StepKeeps(states[k - 1], steps[k - 1]);
    }
  }

  /** When every delivery is resolved within its lease: no row is ever in the hands of two workers, no
      row has more than ten failures recorded, and the attempt after `n` failures comes no sooner than
      60 (2^n - 1) seconds after the row was queued. */
  lemma OneOwner(states: seq<Sys>, steps: seq<Step>, k: nat)
    requires IsRun(states, steps) && k < |states|
    requires forall j :: 0 <= j < k ==> Timely(states[j])
    ensures var s := states[k];
      && (forall t, u :: t in s.claims && u in s.claims && s.claims[t].id == s.claims[u].id ==> t == u)
      && (forall id :: id in s.rows ==> 0 <= s.rows[id].attempts <= 10)
      && (forall t :: t in s.claims ==>
            && s.claims[t].attempts < 10
            && (s.claims[t].id in s.rows ==>
                  s.claims[t].at >= s.rows[s.claims[t].id].created + 60 * (Pow2(s.claims[t].attempts) - 1)))
  {
    RunKeeps(states, steps, k);
    var s := states[k];
    assert forall id :: id in s.rows ==> RowOk(s.rows[id], s.now);
    assert forall t :: t in s.claims ==> ClaimOk(s.rows, s.claims[t]);
  }

  // ..... How often a row is tried .....

  /** How often a row was claimed. */
  function Tries(steps: seq<Step>, id: Id): nat {
    if steps == [] then 0
    else Tries(steps[..|steps| - 1], id) + if steps[|steps| - 1] == TakeRow(id) then 1 else 0
  }

  /** The step ends a claim of the row with nothing written to the row: its worker is gone, or the write
      failed. */
  predicate Unrecorded(s: Sys, step: Step, id: Id)
    requires Enabled(s, step)
  {
    match step
    case Abandon(token) => s.claims[token].id == id
    case Resolve(token, _, writes) => s.claims[token].id == id && !writes.own
    case _ => false
  }

  ghost function Losses(states: seq<Sys>, steps: seq<Step>, id: Id): nat
    requires IsRun(states, steps)
  {
    if steps == [] then 0
    else
      var n := |steps| - 1;
      PrefixIsRun(states, steps);
      Losses(states[..n + 1], steps[..n], id) + if Unrecorded(states[n], steps[n], id) then 1 else 0
  }

  lemma PrefixIsRun(states: seq<Sys>, steps: seq<Step>)
    requires IsRun(states, steps) && steps != []
    ensures IsRun(states[..|steps|], steps[..|steps| - 1])
  {
  }

  ghost predicate IsClaimed(s: Sys, id: Id) { exists t :: t in s.claims && s.claims[t].id == id }

  /** What the tries of a row come to: while it is there, its recorded failures, its claims that ended
      unrecorded, and the claim that stands. */
  ghost predicate TriesAddUp(s: Sys, id: Id, tries: nat, losses: nat) {
    if id in s.rows then tries == s.rows[id].attempts + losses + if IsClaimed(s, id) then 1 else 0
    else tries <= MAX_ATTEMPTS + losses && (id >= s.nextId ==> tries == 0 && losses == 0)
  }

  lemma ClaimEnds(s: Sys, s': Sys, token: nat, id: Id)
    requires Invariant(s) && token in s.claims && s'.claims == s.claims - {token}
    ensures IsClaimed(s', id) <==> IsClaimed(s, id) && s.claims[token].id != id
  {
    if IsClaimed(s, id) && s.claims[token].id != id {
      var t :| t in s.claims && s.claims[t].id == id;
      assert t in s'.claims;
    }
    if IsClaimed(s', id) {
      var t :| t in s'.claims && s'.claims[t].id == id;
      assert t in s.claims && t != token;
    }
  }

  lemma ClaimStarts(s: Sys, s': Sys, c: Claim, id: Id)
    requires Invariant(s) && s'.claims == s.claims[s.nextToken := c]
    ensures IsClaimed(s', id) <==> IsClaimed(s, id) || c.id == id
  {
    assert s'.claims[s.nextToken] == c && s.nextToken !in s.claims;
    if IsClaimed(s, id) {
      var t :| t in s.claims && s.claims[t].id == id;
      assert t in s'.claims && s'.claims[t] == s.claims[t];
    }
  }

  lemma TakenUnclaimed(s: Sys, id: Id)
    requires Invariant(s) && Timely(s) && Enabled(s, TakeRow(id))
    ensures !IsClaimed(s, id)
  {
    if IsClaimed(s, id) {
      var t :| t in s.claims && s.claims[t].id == id;
      LeaseHolds(s, t);
      assert false;
    }
  }

  // A row that is there has been tried no more than its failures, losses and claim allow.
  lemma RowsTries(s: Sys, id: Id)
    requires Invariant(s) && id in s.rows
    ensures id < s.nextId
    ensures 0 <= s.rows[id].attempts + (if IsClaimed(s, id) then 1 else 0) <= MAX_ATTEMPTS
  {
    assert RowOk(s.rows[id], s.now);
    if IsClaimed(s, id) {
      var t :| t in s.claims && s.claims[t].id == id;
      assert ClaimOk(s.rows, s.claims[t]);
    }
  }

  lemma ResolveAddsUp(s: Sys, token: nat, outcome: Outcome, writes: Writes, id: Id, tries: nat, losses: nat)
    requires Invariant(s) && token in s.claims && TriesAddUp(s, id, tries, losses)
    ensures TriesAddUp(Next(s, Resolve(token, outcome, writes)), id, tries,
                       losses + if s.claims[token].id == id && !writes.own then 1 else 0)
  {
    hide Delay, IsClaimed, Invariant;
    var s' := Next(s, Resolve(token, outcome, writes));
    ClaimEnds(s, s', token, id);
    ClaimOfRow(s, token);
    if id in s.rows {
      RowsTries(s, id);
      if id in s'.rows {
        assert s'.rows[id].attempts ==
          s.rows[id].attempts + if s.claims[token].id == id && writes.own && outcome.Retry? then 1 else 0;
        assert s.claims[token].id == id && writes.own ==> outcome.Retry?;
      }
    } else {
      assert id !in s'.rows;
    }
  }

  lemma StepAddsUp(s: Sys, step: Step, id: Id, tries: nat, losses: nat)
    requires Invariant(s) && Timely(s) && Enabled(s, step) && TriesAddUp(s, id, tries, losses)
    ensures TriesAddUp(Next(s, step), id,
                       tries + if step == TakeRow(id) then 1 else 0,
                       losses + if Unrecorded(s, step, id) then 1 else 0)
  {
    hide Delay, IsClaimed, Invariant, Timely;
    var s' := Next(s, step);
    if id in s.rows { RowsTries(s, id); }
    match step {
      case TakeRow(other) =>
        ClaimStarts(s, s', s'.claims[s.nextToken], id);
        TakenUnclaimed(s, other);
      case Resolve(token, outcome, writes) => ResolveAddsUp(s, token, outcome, writes, id, tries, losses);
      case Abandon(token) =>
        ClaimEnds(s, s', token, id);
        ClaimOfRow(s, token);
      case Enqueue(_, _) => NewRowUnclaimed(s, s');
      case _ => SameClaims(s, s', id);
    }
  }

  lemma ClaimOfRow(s: Sys, token: nat)
    requires Invariant(s) && token in s.claims
    ensures s.claims[token].id < s.nextId && IsClaimed(s, s.claims[token].id)
    ensures s.claims[token].id in s.rows ==> s.rows[s.claims[token].id].attempts == s.claims[token].attempts
  {
    assert ClaimOk(s.rows, s.claims[token]);
  }

  lemma NewRowUnclaimed(s: Sys, s': Sys)
    requires Invariant(s) && s'.claims == s.claims
    ensures !IsClaimed(s', s.nextId)
    ensures s.nextId !in s.rows
    ensures forall id :: IsClaimed(s', id) <==> IsClaimed(s, id)
  {
  }

  lemma SameClaims(s: Sys, s': Sys, id: Id)
    requires s'.claims == s.claims
    ensures IsClaimed(s', id) <==> IsClaimed(s, id)
  {
  }

  lemma {:induction false} RunAddsUp(states: seq<Sys>, steps: seq<Step>, id: Id)
    requires IsRun(states, steps) && forall j :: 0 <= j < |steps| ==> Timely(states[j])
    ensures TriesAddUp(states[|steps|], id, Tries(steps, id), Losses(states, steps, id))
    decreases |steps|
  {
    hide Next, TriesAddUp, Timely, Unrecorded;
    if steps == [] {
      NothingTried(states[0], id);
    } else {
      var n := |steps| - 1;
      PrefixIsRun(states, steps);
      RunAddsUp(states[..n + 1], steps[..n], id);
      RunKeeps(states, steps, n);
      StepAddsUp(states[n], steps[n], id, Tries(steps[..n], id), Losses(states[..n + 1], steps[..n], id));
    }
  }

  lemma NothingTried(s: Sys, id: Id)
    requires s == Sys(map[], map[], 0, 0, 0)
    ensures TriesAddUp(s, id, 0, 0)
  {
  }

  /** In every timely run a row is tried at most ten times more often than a claim of it ended with
      nothing written to it. */
  lemma TriesBounded(states: seq<Sys>, steps: seq<Step>, id: Id)
    requires IsRun(states, steps) && forall j :: 0 <= j < |steps| ==> Timely(states[j])
    ensures Tries(steps, id) <= 10 + Losses(states, steps, id)
  {
    hide Tries, Losses;
    RunAddsUp(states, steps, id);
    RunKeeps(states, steps, |steps|);
    if id in states[|steps|].rows { RowsTries(states[|steps|], id); }
  }

  /** A row never written back, tried `n` times, an hour apart. */
  function Untouched(actor: string, inbox: string, n: nat): Sys {
    Sys(map[0 := Row(actor, inbox, 0, n * LEASE, 0)], map[], 1, n, n * LEASE)
  }

  ghost predicate TriedInTime(states: seq<Sys>, steps: seq<Step>, s: Sys, n: nat) {
    && IsRun(states, steps) && states[|steps|] == s
    && (forall j :: 0 <= j <= |steps| ==> Timely(states[j]))
    && Tries(steps, 0) == n
  }

  lemma OneStepMore(states: seq<Sys>, steps: seq<Step>, s: Sys, n: nat, step: Step)
    requires TriedInTime(states, steps, s, n) && Enabled(s, step) && Timely(Next(s, step))
    ensures TriedInTime(states + [Next(s, step)], steps + [step], Next(s, step),
                        n + if step == TakeRow(0) then 1 else 0)
  {
    var more := steps + [step];
    assert more[..|steps|] == steps;
  }

  /** For every number there is a timely run that tries a row so often: with its claims abandoned each
      time, nothing counts them. */
  lemma {:induction false} LostTriesHaveNoLimit(actor: string, inbox: string, n: nat)
    returns (states: seq<Sys>, steps: seq<Step>)
    ensures TriedInTime(states, steps, Untouched(actor, inbox, n), n)
    decreases n
  {
    hide TriedInTime;
    if n == 0 {
      states, steps := OneRowQueued(actor, inbox);
    } else {
      states, steps := LostTriesHaveNoLimit(actor, inbox, n - 1);
      var s := Untouched(actor, inbox, n - 1);
      var taken := Next(s, TakeRow(0));
      var lost := Next(taken, Abandon(n - 1));
      OneStepMore(states, steps, s, n - 1, TakeRow(0));
      OneStepMore(states + [taken], steps + [TakeRow(0)], taken, n, Abandon(n - 1));
      OneStepMore(states + [taken] + [lost], steps + [TakeRow(0)] + [Abandon(n - 1)], lost, n, Tick(LEASE));
      states := states + [taken] + [lost] + [Next(lost, Tick(LEASE))];
      steps := steps + [TakeRow(0)] + [Abandon(n - 1)] + [Tick(LEASE)];
      assert Next(lost, Tick(LEASE)) == Untouched(actor, inbox, n);
    }
  }

  lemma OneRowQueued(actor: string, inbox: string) returns (states: seq<Sys>, steps: seq<Step>)
    ensures TriedInTime(states, steps, Untouched(actor, inbox, 0), 0)
  {
    var start := Sys(map[], map[], 0, 0, 0);
    assert TriedInTime([start], [], start, 0);
    OneStepMore([start], [], start, 0, Enqueue(actor, inbox));
    states, steps := [start] + [Next(start, Enqueue(actor, inbox))], [] + [Enqueue(actor, inbox)];
  }

  /** A claimed row can be claimed again exactly when its hour has passed. */
  lemma SecondClaimIff(s: Sys, t: nat)
    requires Invariant(s) && t in s.claims && s.claims[t].id in s.rows
    ensures Enabled(s, TakeRow(s.claims[t].id)) <==> s.now >= s.claims[t].at + 3600
  {
    assert ClaimOk(s.rows, s.claims[t]) && RowOk(s.rows[s.claims[t].id], s.now);
  }

  /** Past the hour the promise does fail: one row, two owners. */
  lemma ExpiredLeaseHasTwoOwners(actor: string, inbox: string)
    ensures exists states: seq<Sys>, steps {:trigger IsRun(states, steps)} ::
      && IsRun(states, steps)
      && var s := states[|states| - 1];
         0 in s.claims && 1 in s.claims && s.claims[0].id == s.claims[1].id
  {
    var s0 := Sys(map[], map[], 0, 0, 0);
    var s1 := Next(s0, Enqueue(actor, inbox));
    var s2 := Next(s1, TakeRow(0));
    var s3 := Next(s2, Tick(LEASE));
    var s4 := Next(s3, TakeRow(0));
    assert IsRun([s0, s1, s2, s3, s4], [Enqueue(actor, inbox), TakeRow(0), Tick(LEASE), TakeRow(0)]);
    assert [s0, s1, s2, s3, s4][4] == s4;
  }

  // ..... Claiming a batch is a run .....

  function TakeSteps(batch: seq<Id>): seq<Step> {
    seq(|batch|, i requires 0 <= i < |batch| => TakeRow(batch[i]))
  }

  /** The claim says of its row what the row says. */
  predicate IsClaimOn(s: Sys, c: Claim) {
    c.id in s.rows && c.inbox == s.rows[c.id].inbox && c.attempts == s.rows[c.id].attempts && c.at == s.now
  }

  /** What claiming a batch, undisturbed, makes of a state. */
  ghost predicate Claimed(s: Sys, s': Sys, batch: seq<Id>) {
    && s'.rows == AllLeased(s.rows, batch, s.now)
    && s'.now == s.now && s'.nextId == s.nextId && s'.nextToken == s.nextToken + |batch|
    && (forall t :: s.nextToken <= t < s'.nextToken ==>
          && t in s'.claims && s'.claims[t].id == batch[t - s.nextToken] && IsClaimOn(s, s'.claims[t]))
    && (forall t :: t < s.nextToken ==> (t in s'.claims <==> t in s.claims))
    && (forall t :: t < s.nextToken && t in s.claims ==> s'.claims[t] == s.claims[t])
  }

  lemma {:induction false} UnleasedRows(rows: Rows, batch: seq<Id>, now: int, id: Id)
    requires id !in batch
    ensures id in AllLeased(rows, batch, now) <==> id in rows
    ensures id in rows ==> AllLeased(rows, batch, now)[id] == rows[id]
    decreases |batch|
  {
    if batch != [] { UnleasedRows(rows, batch[..|batch| - 1], now, id); }
  }

  /** Claiming distinct claimable rows at one time, which is what the statement does, is a run that takes
      them one by one. */
  lemma {:induction false} ClaimIsRun(states: seq<Sys>, steps: seq<Step>, batch: seq<Id>) returns (more: seq<Sys>)
    requires IsRun(states, steps)
    requires forall i, j :: 0 <= i < j < |batch| ==> batch[i] != batch[j]
    requires var s := states[|steps|];
      forall i :: 0 <= i < |batch| ==>
        batch[i] in s.rows && Claimable(s.rows[batch[i]], s.now) && s.rows[batch[i]].attempts >= 0
    ensures IsRun(more, steps + TakeSteps(batch)) && states <= more
    ensures Claimed(states[|steps|], more[|more| - 1], batch)
    decreases |batch|
  {
    hide Claimable, Claimed, AllLeased;
    var s := states[|steps|];
    if batch == [] {
      more := states;
      NothingClaimed(s);
      assert steps + TakeSteps(batch) == steps;
    } else {
      var n := |batch| - 1;
      var before := ClaimIsRun(states, steps, batch[..n]);
      var s' := before[|before| - 1];
      assert batch[n] !in batch[..n];
      RowsOfClaimed(s, s', batch[..n]);
      UnleasedRows(s.rows, batch[..n], s.now, batch[n]);
      ClaimedOnTop(s, s', batch);
      more := before + [Next(s', TakeRow(batch[n]))];
      RunPlus(before, steps + TakeSteps(batch[..n]), TakeRow(batch[n]));
      assert steps + TakeSteps(batch) == steps + TakeSteps(batch[..n]) + [TakeRow(batch[n])];
    }
  }

  lemma NothingClaimed(s: Sys)
    ensures Claimed(s, s, [])
  {
  }

  lemma ClaimedOnTop(s: Sys, s': Sys, batch: seq<Id>)
    requires batch != [] && Claimed(s, s', batch[..|batch| - 1])
    requires var id := batch[|batch| - 1];
      && id in s.rows && s.rows[id].attempts >= 0 && Claimable(s.rows[id], s.now)
      && id in s'.rows && s'.rows[id] == s.rows[id]
    ensures Enabled(s', TakeRow(batch[|batch| - 1]))
    ensures Claimed(s, Next(s', TakeRow(batch[|batch| - 1])), batch)
  {
    var n := |batch| - 1;
    var end := Next(s', TakeRow(batch[n]));
    forall t | s.nextToken <= t < end.nextToken
      ensures t in end.claims && end.claims[t].id == batch[t - s.nextToken] && IsClaimOn(s, end.claims[t])
    {
      if t < s'.nextToken { assert end.claims[t] == s'.claims[t]; }
    }
  }

  lemma RowsOfClaimed(s: Sys, s': Sys, batch: seq<Id>)
    requires Claimed(s, s', batch)
    ensures s'.rows == AllLeased(s.rows, batch, s.now)
  {
  }

  lemma RunPlus(states: seq<Sys>, steps: seq<Step>, step: Step)
    requires IsRun(states, steps) && Enabled(states[|steps|], step)
    ensures IsRun(states + [Next(states[|steps|], step)], steps + [step])
  {
  }

  // ..... How a row leaves .....

  /** What holds whether or not deliveries are resolved in time: a claim has its row's own inbox. */
  ghost predicate InboxesKnown(s: Sys) {
    && (forall id :: id in s.rows ==> id < s.nextId)
    && (forall t :: t in s.claims ==>
          && t < s.nextToken && s.claims[t].id < s.nextId
          && (s.claims[t].id in s.rows ==> s.rows[s.claims[t].id].inbox == s.claims[t].inbox))
  }

  /** The step takes the row away: its own delivery or its refused inbox, a 410 from its inbox, or
      its sender's erasure. */
  predicate TakesAway(s: Sys, step: Step, id: Id)
    requires Enabled(s, step) && id in s.rows
  {
    match step
    case Resolve(token, outcome, writes) =>
      || (!outcome.Retry? && writes.own && s.claims[token].id == id)
      || (outcome.Gone? && writes.inbox && s.claims[token].inbox == s.rows[id].inbox)
    case EraseActor(actor) => s.rows[id].actor == actor
    case _ => false
  }

  lemma LostIff(s: Sys, step: Step, id: Id)
    requires InboxesKnown(s) && Enabled(s, step) && id in s.rows
    ensures id !in Next(s, step).rows <==> TakesAway(s, step, id)
  {
    hide Delay;
  }

  lemma StepKeepsInboxes(s: Sys, step: Step)
    requires InboxesKnown(s) && Enabled(s, step)
    ensures InboxesKnown(Next(s, step))
  {
    hide Delay;
  }

  lemma {:induction false} RunKeepsInboxes(states: seq<Sys>, steps: seq<Step>, k: nat)
    requires IsRun(states, steps) && k < |states|
    ensures InboxesKnown(states[k])
    decreases k
  {
    if k > 0 {
      RunKeepsInboxes(states, steps, k - 1);
      StepKeepsInboxes(states[k - 1], steps[k - 1]);
    }
  }

  /** In every run, late workers included, a row that is gone was taken away by its own delivery or
      refused inbox, by a 410 from its inbox, or with its sender's account; no failure drops it. */
  lemma {:induction false} LeavesOnlyBy(states: seq<Sys>, steps: seq<Step>, j: nat, k: nat, id: Id) returns (i: nat)
    requires IsRun(states, steps) && j <= k < |states|
    requires id in states[j].rows && id !in states[k].rows
    ensures j <= i < k && id in states[i].rows && TakesAway(states[i], steps[i], id)
    decreases k
  {
    hide TakesAway, Next;
    if id in states[k - 1].rows {
      i := k - 1;
      RunKeepsInboxes(states, steps, i);
      LostIff(states[i], steps[i], id);
    } else {
      i := LeavesOnlyBy(states, steps, j, k - 1, id);
    }
  }

  /** In every run, a 410 whose clearing was written clears its inbox, and no other. */
  lemma GoneClearsInbox(states: seq<Sys>, steps: seq<Step>, k: nat)
    requires IsRun(states, steps) && k < |steps|
    requires steps[k].Resolve? && steps[k].outcome.Gone? && steps[k].writes.inbox
    ensures steps[k].token in states[k].claims
    ensures forall id :: id in states[k + 1].rows <==>
      id in states[k].rows && states[k].rows[id].inbox != states[k].claims[steps[k].token].inbox
  {
    RunKeepsInboxes(states, steps, k);
  }

  lemma ExhaustedStep(s: Sys, step: Step, id: Id)
    requires Invariant(s) && Enabled(s, step)
    requires id in s.rows && s.rows[id].attempts == MAX_ATTEMPTS
    ensures step != TakeRow(id)
    ensures var s' := Next(s, step); id in s'.rows ==> s'.rows[id] == s.rows[id]
  {
    if step.Resolve? { assert ClaimOk(s.rows, s.claims[step.token]); }
  }

  lemma {:induction false} OnceGone(states: seq<Sys>, steps: seq<Step>, j: nat, k: nat, id: Id)
    requires IsRun(states, steps) && j <= k < |states| && id < states[j].nextId && id !in states[j].rows
    ensures id < states[k].nextId && id !in states[k].rows
    decreases k
  {
    if j < k { OnceGone(states, steps, j, k - 1, id); }
  }

  /** In every timely run a row given up on is never claimed again, and stays exactly as it is for as
      long as it is there. */
  lemma {:induction false} ExhaustedRowsKept(states: seq<Sys>, steps: seq<Step>, j: nat, k: nat, id: Id)
    requires IsRun(states, steps) && j <= k < |states|
    requires forall i :: 0 <= i < k ==> Timely(states[i])
    requires id in states[j].rows && states[j].rows[id].attempts == 10
    ensures id in states[k].rows ==> states[k].rows[id] == states[j].rows[id]
    ensures forall i :: j <= i < k ==> steps[i] != TakeRow(id)
    decreases k
  {
    hide Next, TakesAway;
    if j < k {
      ExhaustedRowsKept(states, steps, j, k - 1, id);
      RunKeeps(states, steps, k - 1);
      RunKeeps(states, steps, j);
      if id in states[k - 1].rows {
        ExhaustedStep(states[k - 1], steps[k - 1], id);
      } else {
        OnceGone(states, steps, k - 1, k, id) by { GoneBefore(states, steps, j, k - 1, id); }
      }
    }
  }

  lemma {:induction false} GoneBefore(states: seq<Sys>, steps: seq<Step>, j: nat, k: nat, id: Id)
    requires IsRun(states, steps) && j <= k < |states| && id < states[j].nextId
    ensures id < states[k].nextId
    decreases k
  {
    if j < k { GoneBefore(states, steps, j, k - 1, id); }
  }
}
