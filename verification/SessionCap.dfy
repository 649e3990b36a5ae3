/** The concurrent-session cap of the SMTP proxy: several accept loops sharing one counter, which
    each loads, compares and only then increments. */
module SessionCap {
  const MAX_SESSIONS: nat := 256

  /** Where one accept loop is: waiting, past the comparison, or past the increment. */
  datatype Loop = Waiting | Admitted | Spawning

  /** `running` counts the session threads that have not yet decremented the counter. */
  datatype State = State(live: int, loops: seq<Loop>, running: nat)

  datatype Step =
    | LoadAndCompare(i: nat)
    | Increment(i: nat)
    | SpawnSucceeds(i: nat)
    | SpawnFails(i: nat)
    | SessionEnds

  /** One atomic step; a loop at capacity refuses the connection and waits again. */
  ghost predicate Next(s: State, step: Step, s': State) {
    match step
    case LoadAndCompare(i) =>
      && i < |s.loops| && s.loops[i] == Waiting
      && s' == if s.live >= MAX_SESSIONS then s else s.(loops := s.loops[i := Admitted])
    case Increment(i) =>
      && i < |s.loops| && s.loops[i] == Admitted
      && s' == s.(live := s.live + 1, loops := s.loops[i := Spawning])
    case SpawnSucceeds(i) =>
      && i < |s.loops| && s.loops[i] == Spawning
      && s' == s.(running := s.running + 1, loops := s.loops[i := Waiting])
    case SpawnFails(i) =>
      && i < |s.loops| && s.loops[i] == Spawning
      && s' == s.(live := s.live - 1, loops := s.loops[i := Waiting])
    case SessionEnds =>
      && s.running > 0
      && s' == s.(live := s.live - 1, running := s.running - 1)
  }

  function Initial(n: nat): State {
    State(0, seq(n, _ => Waiting), 0)
  }

  /** A run of `n` loops: the states it passes through, one step between each two. */
  ghost predicate IsRun(n: nat, states: seq<State>, steps: seq<Step>) {
    && |states| == |steps| + 1
    && states[0] == Initial(n)
    && forall k :: 0 <= k < |steps| ==> Next(states[k], steps[k], states[k + 1])
  }

  function Count(loops: seq<Loop>, l: Loop): nat {
    if loops == [] then 0 else (if loops[0] == l then 1 else 0) + Count(loops[1..], l)
  }

  lemma {:induction false} CountBound(loops: seq<Loop>, l: Loop)
    ensures Count(loops, l) <= |loops|
    decreases |loops|
  {
    if loops != [] { CountBound(loops[1..], l); }
  }

  lemma {:induction false} CountUpdate(loops: seq<Loop>, i: nat, to: Loop, l: Loop)
    requires i < |loops|
    ensures Count(loops[i := to], l)
         == Count(loops, l) - (if loops[i] == l then 1 else 0) + (if to == l then 1 else 0)
    decreases |loops|
  {
    var updated := loops[i := to];
    if i == 0 {
      assert updated[1..] == loops[1..];
    } else {
      assert updated[1..] == loops[1..][i - 1 := to];
      CountUpdate(loops[1..], i - 1, to, l);
    }
  }

  lemma {:induction false} NoneWaiting(n: nat, l: Loop)
    requires l != Waiting
    ensures Count(seq(n, _ => Waiting), l) == 0
    decreases n
  {
    if n > 0 {
      assert seq(n, _ => Waiting)[1..] == seq(n - 1, _ => Waiting);
      NoneWaiting(n - 1, l);
    }
  }

  /** The counter is exact, and every loop past its comparison has room kept for it. */
  ghost predicate Invariant(n: nat, s: State) {
    && |s.loops| == n
    && s.live == s.running + Count(s.loops, Spawning)
    && (s.live + Count(s.loops, Admitted) <= MAX_SESSIONS + n - 1 || s.live + Count(s.loops, Admitted) == 0)
  }

  lemma StepKeepsInvariant(n: nat, s: State, step: Step, s': State)
    requires Invariant(n, s) && Next(s, step, s')
    ensures Invariant(n, s')
  {
    if !step.SessionEnds? {
      var to := match step case LoadAndCompare(_) => Admitted case Increment(_) => Spawning case _ => Waiting;
      CountUpdate(s.loops, step.i, to, Admitted);
      CountUpdate(s.loops, step.i, to, Spawning);
      CountBound(s'.loops, Admitted);
    }
  }

  lemma {:induction false} RunKeepsInvariant(n: nat, states: seq<State>, steps: seq<Step>, k: nat)
    requires IsRun(n, states, steps) && k < |states|
    ensures Invariant(n, states[k])
    decreases k
  {
    if k == 0 {
      NoneWaiting(n, Admitted);
      NoneWaiting(n, Spawning);
    } else {
      RunKeepsInvariant(n, states, steps, k - 1);
      StepKeepsInvariant(n, states[k - 1], steps[k - 1], states[k]);
    }
  }

  /** In every interleaving of `n` loops the counter is the number of sessions running or being
      spawned, and overshoots the cap by less than the number of loops. */
  lemma CapHolds(n: nat, states: seq<State>, steps: seq<Step>, k: nat)
    requires IsRun(n, states, steps) && k < |states| && n > 0
    ensures states[k].live == states[k].running + Count(states[k].loops, Spawning)
    ensures 0 <= states[k].live <= 256 + n - 1
  {
    RunKeepsInvariant(n, states, steps, k);
  }

  // ..... The bound is reached .....

  ghost predicate Reachable(n: nat, s: State) {
    exists states, steps :: IsRun(n, states, steps) && states[|states| - 1] == s
  }

  lemma Extend(n: nat, s: State, step: Step, s': State)
    requires Reachable(n, s) && Next(s, step, s')
    ensures Reachable(n, s')
  {
    var states, steps :| IsRun(n, states, steps) && states[|states| - 1] == s;
    assert IsRun(n, states + [s'], steps + [step]);
    assert (states + [s'])[|states|] == s';
  }

  // One loop alone starts `m` sessions.
  lemma {:induction false} Fill(n: nat, m: nat)
    requires n > 0 && m <= MAX_SESSIONS
    ensures Reachable(n, Initial(n).(live := m, running := m))
    decreases m
  {
    var loops := Initial(n).loops;
    if m == 0 {
      assert IsRun(n, [Initial(n)], []);
      assert [Initial(n)][0] == Initial(n).(live := m, running := m);
    } else {
      Fill(n, m - 1);
      var s := State(m - 1, loops, m - 1);
      var s1 := s.(loops := loops[0 := Admitted]);
      var s2 := s1.(live := m, loops := s1.loops[0 := Spawning]);
      var s3 := s2.(running := m, loops := s2.loops[0 := Waiting]);
      Extend(n, s, LoadAndCompare(0), s1);
      Extend(n, s1, Increment(0), s2);
      Extend(n, s2, SpawnSucceeds(0), s3);
      assert s3.loops == loops;
    }
  }

  function Split(n: nat, i: nat, first: Loop, rest: Loop): (loops: seq<Loop>)
    requires i <= n
    ensures |loops| == n
  {
    seq(n, k => if k < i then first else rest)
  }

  lemma {:induction false} AllAdmitted(n: nat, m: nat, i: nat)
    requires 0 < n && i <= n && m < MAX_SESSIONS
    ensures Reachable(n, State(m, Split(n, i, Admitted, Waiting), m))
    decreases i
  {
    if i == 0 {
      Fill(n, m);
      assert Split(n, 0, Admitted, Waiting) == Initial(n).loops;
    } else {
      AllAdmitted(n, m, i - 1);
      var loops, more := Split(n, i - 1, Admitted, Waiting), Split(n, i, Admitted, Waiting);
      assert more == loops[i - 1 := Admitted];
      Extend(n, State(m, loops, m), LoadAndCompare(i - 1), State(m, more, m));
    }
  }

  lemma {:induction false} AllIncremented(n: nat, m: nat, i: nat)
    requires 0 < n && i <= n && m < MAX_SESSIONS
    ensures Reachable(n, State(m + i, Split(n, i, Spawning, Admitted), m))
    decreases i
  {
    if i == 0 {
      AllAdmitted(n, m, n);
      assert Split(n, 0, Spawning, Admitted) == Split(n, n, Admitted, Waiting);
    } else {
      AllIncremented(n, m, i - 1);
      var loops, more := Split(n, i - 1, Spawning, Admitted), Split(n, i, Spawning, Admitted);
      assert more == loops[i - 1 := Spawning];
      Extend(n, State(m + i - 1, loops, m), Increment(i - 1), State(m + i, more, m));
    }
  }

  /** The overshoot is real: the loops can all pass the comparison before any increments. */
  lemma CapIsSharp(n: nat)
    requires n > 0
    ensures exists s: State {:trigger Reachable(n, s)} :: Reachable(n, s) && s.live == 256 + n - 1
  {
    AllIncremented(n, MAX_SESSIONS - 1, n);
    var s := State(MAX_SESSIONS - 1 + n, Split(n, n, Spawning, Admitted), MAX_SESSIONS - 1);
    assert Reachable(n, s);
  }
}
