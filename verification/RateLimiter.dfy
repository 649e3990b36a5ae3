/** The per-sender submission limit of the SMTP proxy: a GCRA bucket per key, pruned when the map is
    large. Times are nanoseconds of a monotonic clock. */
module RateLimiter {
  import opened Wrappers

  const RATE_KEYS_BEFORE_PRUNE := 10_000
  const MINUTE: nat := 60_000_000_000

  type u32 = x: int | 0 <= x < 0x1_0000_0000

  /** The spacing between accepted sends, and how many may run ahead of it. */
  datatype Limits = Limits(interval: nat, burst: nat) {
    predicate Valid() { interval > 0 && burst > 0 }

    function Tolerance(): nat
      requires Valid()
    {
      interval * (burst - 1)
    }
  }

  function AtLeastOne(x: nat): nat { if x == 0 then 1 else x }

  /** The spacing is a minute divided by the rate, rounded down, with at least one for each of them. */
  function LimitsFor(perMinute: u32, burst: u32): (l: Limits)
    ensures l.Valid()
    ensures var rate: nat := if perMinute == 0 then 1 else perMinute;
      l.interval * rate <= 60_000_000_000 < (l.interval + 1) * rate
    ensures l.burst == if burst == 0 then 1 else burst
  {
    Divided(MINUTE, AtLeastOne(perMinute));
    Limits(MINUTE / AtLeastOne(perMinute), AtLeastOne(burst))
  }

  lemma Divided(a: nat, b: nat)
    requires b > 0
    ensures a / b * b <= a < (a / b + 1) * b
  {
    assert a == a / b * b + a % b;
  }

  function Max(a: nat, b: nat): nat { if a > b then a else b }

  /** One bucket: its theoretical arrival time, absent for a key never seen. */
  function Decide(l: Limits, tat: Option<nat>, now: nat): (bool, Option<nat>)
    requires l.Valid()
  {
    var due := tat.GetOr(now);
    if due > now + l.Tolerance() then (false, tat) else (true, Some(Max(due, now) + l.interval))
  }

  function Pruned(state: map<string, nat>, now: nat): map<string, nat> {
    if |state| > RATE_KEYS_BEFORE_PRUNE then map k | k in state && state[k] > now :: state[k] else state
  }

  function Lookup(state: map<string, nat>, key: string): Option<nat> {
    if key in state then Some(state[key]) else None
  }

  /** One call against a whole map, without pruning. */
  function PlainStep(l: Limits, state: map<string, nat>, call: Call): (bool, map<string, nat>)
    requires l.Valid()
  {
    var (admitted, tat) := Decide(l, Lookup(state, call.key), call.now);
    (admitted, if admitted then state[call.key := tat.value] else state)
  }

  class Limiter {
    const limits: Limits
    var state: map<string, nat>

    constructor (perMinute: u32, burst: u32)
      ensures limits == LimitsFor(perMinute, burst) && state == map[]
    {
      limits, state := LimitsFor(perMinute, burst), map[];
    }

    /** One decision, after pruning: the plain step on what the pruned map holds. */
    method Allow(key: string, now: nat) returns (admitted: bool)
      requires limits.Valid()
      modifies this
      ensures (admitted, state) == PlainStep(limits, Pruned(old(state), now), Call(key, now))
    {
      if |state| > RATE_KEYS_BEFORE_PRUNE {
        state := map k | k in state && state[k] > now :: state[k];
      }
      var tat := if key in state then state[key] else now;
      if tat > now + limits.Tolerance() {
        return false;
      }
      state := state[key := Max(tat, now) + limits.interval];
      admitted := true;
    }
  }

  // ..... Runs .....

  datatype Call = Call(key: string, now: nat)

  predicate Nondecreasing(calls: seq<Call>) {
    forall i, j :: 0 <= i < j < |calls| ==> calls[i].now <= calls[j].now
  }

  /** The limiter's decisions over a run of calls. */
  function Run(l: Limits, state: map<string, nat>, calls: seq<Call>): (decisions: seq<bool>)
    requires l.Valid()
    ensures |decisions| == |calls|
    decreases |calls|
  {
    if calls == [] then []
    else
      var (admitted, next) := PlainStep(l, Pruned(state, calls[0].now), calls[0]);
      [admitted] + Run(l, next, calls[1..])
  }

  /** The decisions of a limiter that never prunes. */
  function PlainRun(l: Limits, state: map<string, nat>, calls: seq<Call>): (decisions: seq<bool>)
    requires l.Valid()
    ensures |decisions| == |calls|
    decreases |calls|
  {
    if calls == [] then []
    else
      var (admitted, next) := PlainStep(l, state, calls[0]);
      [admitted] + PlainRun(l, next, calls[1..])
  }

  /** The decisions of one bucket on its own. */
  function BucketRun(l: Limits, tat: Option<nat>, times: seq<nat>): (decisions: seq<bool>)
    requires l.Valid()
    ensures |decisions| == |times|
    decreases |times|
  {
    if times == [] then []
    else
      var (admitted, next) := Decide(l, tat, times[0]);
      [admitted] + BucketRun(l, next, times[1..])
  }

  // ..... Pruning cannot be observed .....

  /** The pruned map is the unpruned one without some keys whose time has passed. */
  ghost predicate Forgets(small: map<string, nat>, big: map<string, nat>, now: nat) {
    && (forall k :: k in small ==> k in big && small[k] == big[k])
    && (forall k :: k in big && k !in small ==> big[k] <= now)
  }

  lemma ForgottenStep(l: Limits, small: map<string, nat>, big: map<string, nat>, call: Call)
    requires l.Valid() && Forgets(small, big, call.now)
    ensures PlainStep(l, small, call).0 == PlainStep(l, big, call).0
    ensures Forgets(PlainStep(l, small, call).1, PlainStep(l, big, call).1, call.now)
  {
  }

  lemma {:induction false} PruningRefines(l: Limits, small: map<string, nat>, big: map<string, nat>, calls: seq<Call>)
    requires l.Valid() && Nondecreasing(calls)
    requires calls != [] ==> Forgets(small, big, calls[0].now)
    ensures Run(l, small, calls) == PlainRun(l, big, calls)
    decreases |calls|
  {
    if calls != [] {
      var now := calls[0].now;
      assert Forgets(Pruned(small, now), big, now);
      ForgottenStep(l, Pruned(small, now), big, calls[0]);
      PruningRefines(l, PlainStep(l, Pruned(small, now), calls[0]).1, PlainStep(l, big, calls[0]).1, calls[1..]);
    }
  }

  /** Over any nondecreasing calls, pruning changes no decision. */
  lemma PruningInvisible(l: Limits, calls: seq<Call>)
    requires l.Valid() && Nondecreasing(calls)
    ensures Run(l, map[], calls) == PlainRun(l, map[], calls)
  {
    PruningRefines(l, map[], map[], calls);
  }

  /** So the map is kept small: after a call it has at most ten thousand and one keys, or only keys whose
      time is yet to come and the caller's own. */
  lemma MapStaysSmall(l: Limits, state: map<string, nat>, call: Call)
    requires l.Valid()
    ensures var after := PlainStep(l, Pruned(state, call.now), call).1;
      |after| <= 10_001 || forall k :: k in after && k != call.key ==> after[k] > call.now
  {
    var kept := Pruned(state, call.now);
    if |state| <= 10_000 {
      assert kept[call.key := 0].Keys == kept.Keys + {call.key};
      var after := PlainStep(l, kept, call).1;
      assert after.Keys <= kept.Keys + {call.key};
      KeysCounted(after.Keys, kept.Keys, call.key);
    }
  }

  lemma KeysCounted(a: set<string>, b: set<string>, key: string)
    requires a <= b + {key}
    ensures |a| <= |b| + 1
  {
    assert a - {key} <= b;
    assert b == (a - {key}) + (b - (a - {key}));
    assert a <= (a - {key}) + {key};
    if key in a { assert a == (a - {key}) + {key}; } else { assert a == a - {key}; }
  }

  // ..... One sender's decisions are its own .....

  function TimesOf(key: string, calls: seq<Call>): seq<nat> {
    if calls == [] then []
    else (if calls[0].key == key then [calls[0].now] else []) + TimesOf(key, calls[1..])
  }

  function DecisionsOf(key: string, calls: seq<Call>, decisions: seq<bool>): seq<bool>
    requires |decisions| == |calls|
  {
    if calls == [] then []
    else (if calls[0].key == key then [decisions[0]] else []) + DecisionsOf(key, calls[1..], decisions[1..])
  }

  lemma {:induction false} BucketsApart(l: Limits, state: map<string, nat>, key: string, calls: seq<Call>)
    requires l.Valid()
    ensures DecisionsOf(key, calls, PlainRun(l, state, calls))
         == BucketRun(l, Lookup(state, key), TimesOf(key, calls))
    decreases |calls|
  {
    if calls != [] {
      var (admitted, next) := PlainStep(l, state, calls[0]);
      assert PlainRun(l, state, calls)[1..] == PlainRun(l, next, calls[1..]);
      BucketsApart(l, next, key, calls[1..]);
      if calls[0].key == key {
        var times := TimesOf(key, calls);
        assert times[1..] == TimesOf(key, calls[1..]) && times[0] == calls[0].now;
      } else {
        assert Lookup(next, key) == Lookup(state, key);
        assert [] + TimesOf(key, calls[1..]) == TimesOf(key, calls[1..]);
      }
    }
  }

  /** A sender's decisions depend on its own calls alone, whoever else sends in between. */
  lemma SendersIndependent(l: Limits, key: string, calls: seq<Call>)
    requires l.Valid() && Nondecreasing(calls)
    ensures DecisionsOf(key, calls, Run(l, map[], calls)) == BucketRun(l, None, TimesOf(key, calls))
  {
    PruningInvisible(l, calls);
    BucketsApart(l, map[], key, calls);
  }

  // ..... The rate bound .....

  function Count(decisions: seq<bool>): (n: nat) {
    if decisions == [] then 0 else (if decisions[0] then 1 else 0) + Count(decisions[1..])
  }

  predicate Within(times: seq<nat>, t0: nat, t1: nat) {
    && (forall i :: 0 <= i < |times| ==> t0 <= times[i] <= t1)
    && (forall i, j :: 0 <= i < j < |times| ==> times[i] <= times[j])
  }

  // Each accepted send pushes the bucket one interval on, and the last was not too far ahead.
  lemma {:induction false} AcceptedSpacing(l: Limits, tat: Option<nat>, times: seq<nat>, t0: nat, t1: nat)
    requires l.Valid() && Within(times, t0, t1)
    ensures var n := Count(BucketRun(l, tat, times));
      n > 0 ==> n * l.interval + Max(tat.GetOr(t0), t0) <= t1 + l.Tolerance() + l.interval
    decreases |times|
  {
    hide Count, BucketRun;
    if times == [] {
      NoDecisions(l, tat);
    } else {
      var next := Decide(l, tat, times[0]).1;
      AcceptedSpacing(l, next, times[1..], t0, t1);
      OneDecision(l, tat, times);
      var n := Count(BucketRun(l, next, times[1..]));
      assert (n + 1) * l.interval == n * l.interval + l.interval;
    }
  }

  lemma NoDecisions(l: Limits, tat: Option<nat>)
    requires l.Valid()
    ensures Count(BucketRun(l, tat, [])) == 0
  {
  }

  lemma OneDecision(l: Limits, tat: Option<nat>, times: seq<nat>)
    requires l.Valid() && times != []
    ensures var (admitted, next) := Decide(l, tat, times[0]);
      Count(BucketRun(l, tat, times)) == (if admitted then 1 else 0) + Count(BucketRun(l, next, times[1..]))
  {
    var (admitted, next) := Decide(l, tat, times[0]);
    assert BucketRun(l, tat, times)[1..] == BucketRun(l, next, times[1..]);
  }

  /** From any state, one bucket accepts between `t0` and `t1` at most the burst plus one send for
      each whole interval. */
  lemma BucketBound(l: Limits, tat: Option<nat>, times: seq<nat>, t0: nat, t1: nat)
    requires l.Valid() && t0 <= t1 && Within(times, t0, t1)
    ensures Count(BucketRun(l, tat, times)) <= l.burst + (t1 - t0) / l.interval
  {
    hide BucketRun, Count, Within;
    var n, i := Count(BucketRun(l, tat, times)), l.interval;
    if n > 0 {
      AcceptedSpacing(l, tat, times, t0, t1);
      assert i * (l.burst - 1) + i == l.burst * i;
      AtMostQuotient(n, l.burst, i, t1 - t0);
    }
  }

  lemma AtMostQuotient(n: nat, b: nat, i: nat, d: nat)
    requires i > 0 && n * i <= b * i + d
    ensures n <= b + d / i
  {
    var spare := b + d / i + 1 - n;
    assert spare * i == b * i + (d / i) * i + i - n * i;
    PositiveFactor(spare, i);
  }

  lemma PositiveFactor(x: int, i: nat)
    requires i > 0 && x * i > 0
    ensures x > 0
  {
  }

  lemma {:induction false} SplitRun(l: Limits, tat: Option<nat>, a: seq<nat>, b: seq<nat>) returns (mid: Option<nat>)
    requires l.Valid()
    ensures BucketRun(l, tat, a + b) == BucketRun(l, tat, a) + BucketRun(l, mid, b)
    decreases |a|
  {
    if a == [] {
      mid := tat;
      assert a + b == b;
    } else {
      mid := SplitRun(l, Decide(l, tat, a[0]).1, a[1..], b);
      assert (a + b)[1..] == a[1..] + b;
    }
  }

  lemma {:induction false} TimesSplit(key: string, a: seq<Call>, b: seq<Call>)
    ensures TimesOf(key, a + b) == TimesOf(key, a) + TimesOf(key, b)
    decreases |a|
  {
    if a == [] {
      assert a + b == b;
    } else {
      assert (a + b)[1..] == a[1..] + b;
      TimesSplit(key, a[1..], b);
      var head := if a[0].key == key then [a[0].now] else [];
      assert head + (TimesOf(key, a[1..]) + TimesOf(key, b)) == (head + TimesOf(key, a[1..])) + TimesOf(key, b);
    }
  }

  lemma {:induction false} DecisionsSplit(key: string, a: seq<Call>, b: seq<Call>, da: seq<bool>, db: seq<bool>)
    requires |da| == |a| && |db| == |b|
    ensures DecisionsOf(key, a + b, da + db) == DecisionsOf(key, a, da) + DecisionsOf(key, b, db)
    decreases |a|
  {
    if a == [] {
      assert a + b == b && da + db == db;
    } else {
      assert (a + b)[1..] == a[1..] + b && (da + db)[1..] == da[1..] + db;
      DecisionsSplit(key, a[1..], b, da[1..], db);
      var head := if a[0].key == key then [da[0]] else [];
      assert head + (DecisionsOf(key, a[1..], da[1..]) + DecisionsOf(key, b, db))
          == (head + DecisionsOf(key, a[1..], da[1..])) + DecisionsOf(key, b, db);
    }
  }

  lemma {:induction false} DecisionsLength(key: string, calls: seq<Call>, decisions: seq<bool>)
    requires |decisions| == |calls|
    ensures |DecisionsOf(key, calls, decisions)| == |TimesOf(key, calls)|
    decreases |calls|
  {
    if calls != [] { DecisionsLength(key, calls[1..], decisions[1..]); }
  }

  lemma {:induction false} TimesWithin(key: string, calls: seq<Call>, t0: nat, t1: nat)
    requires Nondecreasing(calls) && forall c :: c in calls ==> t0 <= c.now <= t1
    ensures Within(TimesOf(key, calls), t0, t1)
    decreases |calls|
  {
    if calls != [] {
      TimesWithin(key, calls[1..], if calls[0].now > t0 then calls[0].now else t0, t1);
    }
  }

  /** In any nondecreasing run of the limiter, over any mix of senders, any stretch of calls whose
      times lie in [t0, t1] has at most burst + (t1 - t0) / interval accepted sends of one sender. */
  lemma RateBound(l: Limits, key: string, before: seq<Call>, calls: seq<Call>, after: seq<Call>, t0: nat, t1: nat)
    requires l.Valid() && Nondecreasing(before + calls + after)
    requires t0 <= t1 && forall c :: c in calls ==> t0 <= c.now <= t1
    ensures var d := Run(l, map[], before + calls + after);
      Count(DecisionsOf(key, calls, d[|before|..|before| + |calls|])) <= l.burst + (t1 - t0) / l.interval
  {
    hide Run, DecisionsOf, BucketRun, Count, TimesOf;
    var all := before + calls + after;
    var mid := StretchIsBucket(l, key, before, calls, after);
    assert Nondecreasing(calls) by {
      assert forall i :: 0 <= i < |calls| ==> calls[i] == all[|before| + i];
    }
    TimesWithin(key, calls, t0, t1);
    BucketBound(l, mid, TimesOf(key, calls), t0, t1);
  }

  lemma StretchIsBucket(l: Limits, key: string, before: seq<Call>, calls: seq<Call>, after: seq<Call>)
    returns (mid: Option<nat>)
    requires l.Valid() && Nondecreasing(before + calls + after)
    ensures var d := Run(l, map[], before + calls + after);
      DecisionsOf(key, calls, d[|before|..|before| + |calls|]) == BucketRun(l, mid, TimesOf(key, calls))
  {
    hide Run, DecisionsOf, BucketRun, Count, TimesOf, Nondecreasing;
    var all := before + calls + after;
    var d := Run(l, map[], all);
    var n, m := |before|, |before| + |calls|;
    SendersIndependent(l, key, all);
    var x, y, z := TimesOf(key, before), TimesOf(key, calls), TimesOf(key, after);
    TimesSplit(key, before + calls, after);
    TimesSplit(key, before, calls);
    var mid1 := SplitRun(l, None, x + y, z);
    mid := SplitRun(l, None, x, y);
    assert d == d[..n] + d[n..m] + d[m..];
    DecisionsSplit(key, before + calls, after, d[..n] + d[n..m], d[m..]);
    DecisionsSplit(key, before, calls, d[..n], d[n..m]);
    DecisionsLength(key, before, d[..n]);
    DecisionsLength(key, calls, d[n..m]);
    Middle(DecisionsOf(key, before, d[..n]), DecisionsOf(key, calls, d[n..m]), DecisionsOf(key, after, d[m..]),
           BucketRun(l, None, x), BucketRun(l, mid, y), BucketRun(l, mid1, z));
  }

  lemma Middle(a: seq<bool>, b: seq<bool>, c: seq<bool>, a': seq<bool>, b': seq<bool>, c': seq<bool>)
    requires a + b + c == a' + b' + c' && |a| == |a'| && |b| == |b'|
    ensures b == b'
  {
    assert b == (a + b + c)[|a|..|a| + |b|];
    assert b' == (a' + b' + c')[|a|..|a| + |b|];
  }

  /** The bound in the configuration's own terms: in `minutes` minutes at most the burst and the rate for
      each of them, and, where the rate does not divide a minute, what its rounded spacing lets slip. */
  lemma MinuteBound(perMinute: u32, burst: u32, key: string, before: seq<Call>, calls: seq<Call>, after: seq<Call>,
                    start: nat, minutes: nat)
    requires Nondecreasing(before + calls + after)
    requires forall c :: c in calls ==> start <= c.now <= start + minutes * 60_000_000_000
    ensures var rate: nat := if perMinute == 0 then 1 else perMinute;
      var d := Run(LimitsFor(perMinute, burst), map[], before + calls + after);
      var slip := minutes * (60_000_000_000 % rate) / (60_000_000_000 / rate);
      && Count(DecisionsOf(key, calls, d[|before|..|before| + |calls|]))
           <= (if burst == 0 then 1 else burst) + minutes * rate + slip
      && (60_000_000_000 % rate == 0 ==> slip == 0)
  {
    hide Run, DecisionsOf, Count;
    var l := LimitsFor(perMinute, burst);
    var rate := AtLeastOne(perMinute);
    RateBound(l, key, before, calls, after, start, start + minutes * MINUTE);
    WholeMinutes(minutes, rate, l.interval, MINUTE % rate);
    assert MINUTE == l.interval * rate + MINUTE % rate;
  }

  // What fits into some minutes, counted in intervals.
  lemma WholeMinutes(minutes: nat, rate: nat, interval: nat, rest: nat)
    requires interval > 0
    ensures minutes * (interval * rate + rest) / interval == minutes * rate + minutes * rest / interval
    ensures rest == 0 ==> minutes * rest / interval == 0
  {
    var a, b := minutes * rate, minutes * rest;
    assert minutes * (interval * rate + rest) == a * interval + b by {
      assert minutes * (interval * rate) == (minutes * rate) * interval;
    }
    QuotientOfSum(a, b, interval);
  }

  lemma QuotientOfSum(a: nat, b: nat, d: nat)
    requires d > 0
    ensures (a * d + b) / d == a + b / d
  {
    var q := b / d;
    assert b == q * d + b % d;
    assert a * d + b == (a + q) * d + b % d;
    QuotientIs(a * d + b, d, a + q, b % d);
  }

  lemma QuotientIs(x: nat, d: nat, q: nat, r: nat)
    requires d > 0 && x == q * d + r && r < d
    ensures x / d == q
  {
    var p := x / d;
    assert x == p * d + x % d;
    if p > q { assert p * d >= (q + 1) * d by { MultipliedLe(q + 1, p, d); } }
    if p < q { assert q * d >= (p + 1) * d by { MultipliedLe(p + 1, q, d); } }
  }

  // ..... The burst, and pacing .....

  function Repeated(now: nat, n: nat): seq<nat> {
    if n == 0 then [] else [now] + Repeated(now, n - 1)
  }

  lemma {:induction false} BurstFrom(l: Limits, tat: Option<nat>, now: nat, used: nat, n: nat)
    requires l.Valid() && used <= l.burst
    requires tat == if used == 0 then None else Some(now + used * l.interval)
    ensures var d := BucketRun(l, tat, Repeated(now, n));
      |d| == n && forall i :: 0 <= i < n ==> (d[i] <==> used + i < l.burst)
    decreases n
  {
    if n > 0 {
      var times := Repeated(now, n);
      assert times[1..] == Repeated(now, n - 1);
      var (admitted, next) := Decide(l, tat, now);
      InsideBurst(l, used);
      assert (used + 1) * l.interval == used * l.interval + l.interval;
      var used' := if used < l.burst then used + 1 else used;
      BurstFrom(l, next, now, used', n - 1);
      var d, rest := BucketRun(l, tat, times), BucketRun(l, next, Repeated(now, n - 1));
      assert d == [admitted] + rest;
    }
  }

  lemma {:induction false} MultipliedLe(a: nat, b: nat, k: nat)
    requires a <= b
    ensures a * k <= b * k
    decreases b
  {
    if a < b {
      MultipliedLe(a, b - 1, k);
      assert b * k == (b - 1) * k + k;
    }
  }

  lemma InsideBurst(l: Limits, used: nat)
    requires l.Valid()
    ensures used * l.interval <= l.Tolerance() <==> used < l.burst
  {
    var k, interval := l.burst - 1, l.interval;
    assert l.Tolerance() == k * interval;
    if used <= k {
      MultipliedLe(used, k, interval);
    } else {
      MultipliedLe(k + 1, used, interval);
      assert (k + 1) * interval == k * interval + interval;
    }
  }

  /** A fresh sender is admitted at one instant exactly as many times as the burst, and no more. */
  lemma FreshBurst(perMinute: u32, burst: u32, now: nat, n: nat)
    ensures var d := BucketRun(LimitsFor(perMinute, burst), None, Repeated(now, n));
      |d| == n && forall i :: 0 <= i < n ==> (d[i] <==> i < if burst == 0 then 1 else burst)
  {
    BurstFrom(LimitsFor(perMinute, burst), None, now, 0, n);
  }

  predicate Paced(l: Limits, times: seq<nat>) {
    forall i :: 0 < i < |times| ==> times[i - 1] + l.interval <= times[i]
  }

  /** A sender who keeps the interval is never refused. */
  lemma {:induction false} PacedNeverRefused(l: Limits, tat: Option<nat>, times: seq<nat>)
    requires l.Valid() && Paced(l, times)
    requires tat.Some? && times != [] ==> tat.value <= times[0]
    ensures forall d :: d in BucketRun(l, tat, times) ==> d
    decreases |times|
  {
    if times != [] {
      var (admitted, next) := Decide(l, tat, times[0]);
      PacedNeverRefused(l, next, times[1..]);
    }
  }
}
