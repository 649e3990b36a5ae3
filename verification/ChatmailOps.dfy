/** Mailbox deletions owed to the Chatmail sidecar: put on record before they are attempted, and
    settled only once the sidecar says that the mailbox is gone. */
module ChatmailOps {
  import opened Wrappers
  import opened SearchQueue
  import SearchTimes

  /** A mailbox deletion owed; its actor is forgotten when the actor's row goes. The limit on
      attempts and the delay between them are the search queue's. */
  datatype MailOp = MailOp(actor: Option<string>, state: RowState, attempts: int, due: int)

  /** The operations, of which an address has one, and the mailboxes the sidecar holds. */
  type Ops = map<string, MailOp>
  datatype Mail = Mail(ops: Ops, boxes: set<string>)

  /** One attempt: whether the sidecar accepts the deletion and, separately, whether it removes the
      mailbox; whether it answers the question that follows; and whether the outcome is written. */
  datatype Attempt = Attempt(accepted: bool, removed: bool, answers: bool, recorded: bool)

  // ..... The record .....

  /** An address is put on record once; recording it again leaves its operation as it is. */
  function Owed(ops: Ops, actor: string, address: string, now: int): Ops {
    if address in ops then ops else ops[address := MailOp(Some(actor), Pending, 0, now)]
  }

  function Closed(ops: Ops, address: string): Ops {
    if address in ops then ops[address := ops[address].(state := Succeeded, attempts := ops[address].attempts + 1)]
    else ops
  }

  function Deferred(ops: Ops, address: string, attempts: int, now: int): Ops {
    if address in ops
    then ops[address := ops[address].(attempts := attempts + 1,
                                      state := if attempts + 1 >= MAX_ATTEMPTS then Failed else Pending,
                                      due := now + Backoff(attempts + 1))]
    else ops
  }

  /** The actor's row is gone: its operations stay, without it. */
  function Orphaned(ops: Ops, actor: string): Ops {
    map a | a in ops :: if ops[a].actor == Some(actor) then ops[a].(actor := None) else ops[a]
  }

  /** Drained or given up on: nothing more will be tried for this actor. */
  predicate SettledFor(ops: Ops, actor: string) {
    forall a :: a in ops && ops[a].actor == Some(actor) ==> ops[a].state != Pending
  }

  class Ledger {
    var ops: Ops

    constructor ()
      ensures ops == map[]
    {
      ops := map[];
    }

    method EnqueueDelete(actor: string, address: string, now: int)
      modifies this
      ensures ops == Owed(old(ops), actor, address, now)
    {
      if address !in ops {
        ops := ops[address := MailOp(Some(actor), Pending, 0, now)];
      }
    }

    method MarkSucceeded(address: string)
      modifies this
      ensures ops == Closed(old(ops), address)
    {
      if address in ops {
        ops := ops[address := ops[address].(state := Succeeded, attempts := ops[address].attempts + 1)];
      }
    }

    method MarkFailed(address: string, attempts: int, now: int)
      modifies this
      ensures ops == Deferred(old(ops), address, attempts, now)
    {
      var next := attempts + 1;
      var exhausted := next >= MAX_ATTEMPTS;
      var delay := Backoff(next);
      if address in ops {
        ops := ops[address := ops[address].(attempts := next, state := if exhausted then Failed else Pending,
                                            due := now + delay)];
      }
    }
  }

  // ..... The sidecar .....

  class Sidecar {
    var boxes: set<string>

    method DeleteAccount(address: string, a: Attempt) returns (ok: bool)
      modifies this
      ensures boxes == (if a.removed then old(boxes) - {address} else old(boxes)) && ok == a.accepted
    {
      if a.removed { boxes := boxes - {address}; }
      ok := a.accepted;
    }

    /** Whether the mailbox is there, when the sidecar answers. */
    method AccountExists(address: string, a: Attempt) returns (there: Option<bool>)
      ensures there == if a.answers then Some(address in boxes) else None
    {
      there := if a.answers then Some(address in boxes) else None;
    }
  }

  // ..... Draining .....

  function BoxesAfter(boxes: set<string>, address: string, a: Attempt): set<string> {
    if a.removed then boxes - {address} else boxes
  }

  /** The deletion was accepted and the mailbox was then seen to be gone. */
  predicate SeenGone(boxes: set<string>, address: string, a: Attempt) {
    a.accepted && a.answers && address !in BoxesAfter(boxes, address, a)
  }

  /** One operation worked on, from an attempt count read earlier. */
  function Worked(m: Mail, address: string, attempts: int, a: Attempt, now: int): Mail {
    Mail(if !a.recorded then m.ops
         else if SeenGone(m.boxes, address, a) then Closed(m.ops, address)
         else Deferred(m.ops, address, attempts, now),
         BoxesAfter(m.boxes, address, a))
  }

  function Drained(m: Mail, batch: seq<(string, int)>, attempts: seq<Attempt>, now: int): (Mail, nat)
    requires |attempts| == |batch|
  {
    if batch == [] then (m, 0)
    else
      var n := |batch| - 1;
      var (before, count) := Drained(m, batch[..n], attempts[..n], now);
      (Worked(before, batch[n].0, batch[n].1, attempts[n], now),
       if SeenGone(before.boxes, batch[n].0, attempts[n]) then count + 1 else count)
  }

  /** Drain the operations that were due, as they were read. */
  method Drain(ledger: Ledger, sidecar: Sidecar?, batch: seq<(string, int)>, attempts: seq<Attempt>, now: int)
    returns (succeeded: nat)
    requires |attempts| == |batch|
    modifies ledger, sidecar
    ensures sidecar == null ==> succeeded == 0 && ledger.ops == old(ledger.ops)
    ensures sidecar != null ==>
      (Mail(ledger.ops, sidecar.boxes), succeeded)
      == Drained(Mail(old(ledger.ops), old(sidecar.boxes)), batch, attempts, now)
  {
    hide Closed, Deferred;
    succeeded := 0;
    if sidecar == null { return; }
    ghost var mail := Mail(ledger.ops, sidecar.boxes);
    for i := 0 to |batch|
      invariant (Mail(ledger.ops, sidecar.boxes), succeeded) == Drained(mail, batch[..i], attempts[..i], now)
    {
      assert batch[..i + 1][..i] == batch[..i] && attempts[..i + 1][..i] == attempts[..i];
      var (address, read) := batch[i];
      var accepted := sidecar.DeleteAccount(address, attempts[i]);
      var gone := false;
      if accepted {
        // Only the answer to the question closes the operation.
        var held := sidecar.AccountExists(address, attempts[i]);
        gone := held == Some(false);
      }
      if gone { succeeded := succeeded + 1; }
      if attempts[i].recorded {
        if gone {
          ledger.MarkSucceeded(address);
        } else {
          ledger.MarkFailed(address, read, now);
        }
      }
    }
    assert batch[..|batch|] == batch && attempts[..|batch|] == attempts;
  }

  // ..... Runs .....

  datatype Step =
    | Enqueue(owner: string, address: string, now: int)
    | Work(address: string, attempt: Attempt, now: int)
    | Provision(address: string)
    | Forget(actor: string)

  predicate Enabled(m: Mail, step: Step) {
    step.Work? ==> step.address in m.ops && m.ops[step.address].state == Pending && m.ops[step.address].due <= step.now
  }

  function Next(m: Mail, step: Step): Mail {
    match step
    case Enqueue(owner, address, now) => m.(ops := Owed(m.ops, owner, address, now))
    case Work(address, a, now) => if address in m.ops then Worked(m, address, m.ops[address].attempts, a, now) else m
    case Provision(address) => m.(boxes := m.boxes + {address})
    case Forget(actor) => m.(ops := Orphaned(m.ops, actor))
  }

  function After(boxes: set<string>, steps: seq<Step>): Mail {
    if steps == [] then Mail(map[], boxes) else Next(After(boxes, steps[..|steps| - 1]), steps[|steps| - 1])
  }

  predicate IsRun(boxes: set<string>, steps: seq<Step>) {
    steps != [] ==>
      IsRun(boxes, steps[..|steps| - 1]) && Enabled(After(boxes, steps[..|steps| - 1]), steps[|steps| - 1])
  }

  /** How many outcomes were written for an address. */
  function Outcomes(steps: seq<Step>, address: string): nat {
    if steps == [] then 0
    else
      var last := steps[|steps| - 1];
      Outcomes(steps[..|steps| - 1], address)
      + if last.Work? && last.address == address && last.attempt.recorded then 1 else 0
  }

  /** The sidecar was asked for a mailbox at an address whose deletion was already on record. */
  predicate Reopened(boxes: set<string>, steps: seq<Step>, address: string) {
    steps != [] &&
    (|| Reopened(boxes, steps[..|steps| - 1], address)
     || (steps[|steps| - 1] == Provision(address) && address in After(boxes, steps[..|steps| - 1]).ops))
  }

  /** What is known of one address after a run. */
  predicate SoundAt(boxes: set<string>, steps: seq<Step>, address: string) {
    var m := After(boxes, steps);
    if address !in m.ops then Outcomes(steps, address) == 0
    else
      var op := m.ops[address];
      && op.attempts == Outcomes(steps, address) <= MAX_ATTEMPTS
      && (op.state == Pending ==> op.attempts < MAX_ATTEMPTS)
      && (op.state == Failed ==> op.attempts == MAX_ATTEMPTS)
      && (op.state == Succeeded ==> address in m.boxes ==> Reopened(boxes, steps, address))
  }

  /** In every run, whatever the sidecar does and answers: at most eight outcomes are written for an
      address; it is given up on only after eight; and it is marked succeeded only with its mailbox
      gone, which then stays gone unless the address is given out again. */
  lemma {:induction false} RunIsSound(boxes: set<string>, steps: seq<Step>, address: string)
    requires IsRun(boxes, steps)
    ensures SoundAt(boxes, steps, address)
    decreases |steps|
  {
    hide Backoff;
    if steps != [] {
      RunIsSound(boxes, steps[..|steps| - 1], address);
    }
  }

  // ..... When an operation is tried .....

  /** When an address's operation was last put on record or had an outcome written. */
  function LastMarked(steps: seq<Step>, address: string): Option<int> {
    if steps == [] then None
    else
      var before, step := LastMarked(steps[..|steps| - 1], address), steps[|steps| - 1];
      if step.Enqueue? && step.address == address && before.None? then Some(step.now)
      else if step.Work? && step.address == address && step.attempt.recorded && before.Some? then Some(step.now)
      else before
  }

  // How an operation stands to its history.
  predicate AsMarked(op: MailOp, outcomes: nat, last: int) {
    match op.state
    case Pending => op.attempts == outcomes < 8 && op.due == last + SearchTimes.WAITS[outcomes]
    case Succeeded => true
    case Failed => outcomes == 8
  }

  /** In every run an operation still to be tried may be worked on exactly from its last outcome plus the
      wait for that many, and it is given up on exactly at the eighth. */
  lemma TriedWhenDue(boxes: set<string>, steps: seq<Step>, address: string, a: Attempt, now: int)
    requires IsRun(boxes, steps) && address in After(boxes, steps).ops
    ensures LastMarked(steps, address).Some?
    ensures var op, n := After(boxes, steps).ops[address], Outcomes(steps, address);
      && (op.state == Pending ==> n < 8)
      && (op.state == Failed ==> n == 8)
      && (Enabled(After(boxes, steps), Work(address, a, now)) <==>
            op.state == Pending && now >= LastMarked(steps, address).value + SearchTimes.WAITS[n])
  {
    OpAsMarked(boxes, steps, address);
  }

  lemma {:induction false} OpAsMarked(boxes: set<string>, steps: seq<Step>, address: string)
    requires IsRun(boxes, steps)
    ensures var m := After(boxes, steps);
      && (LastMarked(steps, address).Some? <==> address in m.ops)
      && (address !in m.ops ==> Outcomes(steps, address) == 0)
      && (address in m.ops ==> AsMarked(m.ops[address], Outcomes(steps, address), LastMarked(steps, address).value))
    decreases |steps|
  {
    hide Next, AsMarked;
    if steps != [] {
      var n := |steps| - 1;
      OpAsMarked(boxes, steps[..n], address);
      MarkedStep(After(boxes, steps[..n]), steps[n], address, Outcomes(steps[..n], address),
                 LastMarked(steps[..n], address));
    }
  }

  lemma MarkedStep(m: Mail, step: Step, address: string, outcomes: nat, last: Option<int>)
    requires Enabled(m, step)
    requires last.Some? <==> address in m.ops
    requires address !in m.ops ==> outcomes == 0
    requires address in m.ops ==> AsMarked(m.ops[address], outcomes, last.value)
    ensures var mine := step.Work? && step.address == address && step.attempt.recorded;
      var outcomes' := if mine then outcomes + 1 else outcomes;
      var last' := if step.Enqueue? && step.address == address && last.None? then Some(step.now)
                   else if mine && last.Some? then Some(step.now) else last;
      && (last'.Some? <==> address in Next(m, step).ops)
      && (last'.None? ==> outcomes' == 0)
      && (last'.Some? ==> AsMarked(Next(m, step).ops[address], outcomes', last'.value))
  {
    hide Backoff;
    if outcomes < 7 { SearchTimes.BackoffIs(outcomes + 1); }
  }

  /** Work whose outcome is written closes its operation exactly when the deletion was accepted, the
      question answered, and the mailbox gone by then; it counts as an attempt either way. */
  lemma WorkOutcome(m: Mail, address: string, attempts: nat, a: Attempt, now: int)
    requires address in m.ops && a.recorded
    ensures var op := Worked(m, address, attempts, a, now).ops[address];
      && op.actor == m.ops[address].actor
      && (op.state == Succeeded <==> a.accepted && a.answers && (a.removed || address !in m.boxes))
      && (op.state != Succeeded ==>
            op.attempts == attempts + 1 && (op.state == Failed <==> attempts + 1 >= 8))
  {
    hide Backoff;
  }

  predicate IsSettled(m: Mail, address: string) {
    address in m.ops && m.ops[address].state != Pending
  }

  /** Continue a run. */
  function Onwards(m: Mail, steps: seq<Step>): Mail {
    if steps == [] then m else Next(Onwards(m, steps[..|steps| - 1]), steps[|steps| - 1])
  }

  predicate IsContinuation(m: Mail, steps: seq<Step>) {
    steps != [] ==>
      IsContinuation(m, steps[..|steps| - 1]) && Enabled(Onwards(m, steps[..|steps| - 1]), steps[|steps| - 1])
  }

  /** Once an address is settled it is never worked on again. A mailbox it has then, because it was
      given out again or because it was given up on, outlasts every later erasure of its holder. */
  lemma {:induction false} SettledAddressKeepsItsMailbox(m: Mail, steps: seq<Step>, address: string)
    requires IsSettled(m, address) && address in m.boxes && IsContinuation(m, steps)
    ensures var end := Onwards(m, steps); IsSettled(end, address) && address in end.boxes
    decreases |steps|
  {
    hide Backoff;
    if steps != [] {
      SettledAddressKeepsItsMailbox(m, steps[..|steps| - 1], address);
    }
  }

  predicate Removes(m: Mail, steps: seq<Step>, address: string) {
    IsContinuation(m, steps) && address !in Onwards(m, steps).boxes
  }

  /** After an erasure is recorded, some way on removes the mailbox that is there exactly when the
      address had no operation or one still to be tried; otherwise no way on does. */
  lemma ErasureReachesMailboxIff(m: Mail, actor: string, address: string, now: int)
    requires address in m.boxes
    ensures var owed := Next(m, Enqueue(actor, address, now));
      (exists steps :: Removes(owed, steps, address)) <==> !IsSettled(m, address)
  {
    var owed := Next(m, Enqueue(actor, address, now));
    if IsSettled(m, address) {
      forall steps
        ensures !Removes(owed, steps, address)
      {
        if IsContinuation(owed, steps) { SettledAddressKeepsItsMailbox(owed, steps, address); }
      }
    } else {
      var work := Work(address, Attempt.Attempt(true, true, true, true), owed.ops[address].due);
      var steps := [work];
      assert steps[..0] == [] && IsContinuation(owed, []) && Onwards(owed, []) == owed;
      assert Enabled(owed, work);
      assert steps[..|steps| - 1] == [] && steps[|steps| - 1] == work;
      assert Removes(owed, steps, address);
    }
  }

  // ..... A drain is a run .....

  /** The operations as the worker reads them. */
  function ReadOps(ops: Ops, addresses: seq<string>): seq<(string, int)>
    requires forall i :: 0 <= i < |addresses| ==> addresses[i] in ops
  {
    seq(|addresses|, i requires 0 <= i < |addresses| => (addresses[i], ops[addresses[i]].attempts))
  }

  function WorkSteps(addresses: seq<string>, attempts: seq<Attempt>, now: int): seq<Step>
    requires |attempts| == |addresses|
  {
    seq(|addresses|, i requires 0 <= i < |addresses| => Work(addresses[i], attempts[i], now))
  }

  /** Draining distinct operations that were due, as they were read and undisturbed, is a run that works on
      each in turn. */
  lemma {:induction false} DrainIsRun(m: Mail, addresses: seq<string>, attempts: seq<Attempt>, now: int)
    requires |attempts| == |addresses|
    requires forall i, j :: 0 <= i < j < |addresses| ==> addresses[i] != addresses[j]
    requires forall i :: 0 <= i < |addresses| ==>
      addresses[i] in m.ops && m.ops[addresses[i]].state == Pending && m.ops[addresses[i]].due <= now
    ensures var steps := WorkSteps(addresses, attempts, now);
      && IsContinuation(m, steps)
      && Onwards(m, steps) == Drained(m, ReadOps(m.ops, addresses), attempts, now).0
      && forall a :: a in m.ops && a !in addresses ==>
           a in Onwards(m, steps).ops && Onwards(m, steps).ops[a] == m.ops[a]
    decreases |addresses|
  {
    hide Backoff;
    var steps := WorkSteps(addresses, attempts, now);
    if addresses != [] {
      var n := |addresses| - 1;
      DrainIsRun(m, addresses[..n], attempts[..n], now);
      assert steps[..n] == WorkSteps(addresses[..n], attempts[..n], now);
      assert ReadOps(m.ops, addresses)[..n] == ReadOps(m.ops, addresses[..n]);
      assert addresses[n] !in addresses[..n];
      assert forall a :: a !in addresses ==> a !in addresses[..n] && a != addresses[n];
    }
  }
}
