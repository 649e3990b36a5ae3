/** The fixed-window limiter kept in Redis: one counter a key, which expires a window after the
    request that created it. Times are in milliseconds and windows in seconds. */
module FixedWindow {
  import opened Wrappers

  /** A counter, and the last instant it is there. */
  datatype Entry = Entry(count: int, expires: int)
  type Entries = map<string, Entry>

  datatype Decision = Allowed | Limited(retryAfter: int)

  const SECOND := 1000

  // ..... The commands of the script .....

  predicate IsLive(entries: Entries, key: string, now: int) {
    key in entries && now <= entries[key].expires
  }

  /** Whole seconds left, to the nearest. */
  function SecondsLeft(e: Entry, now: int): int {
    (e.expires - now + SECOND / 2) / SECOND
  }

  /** What one request does to the counters; a window of no length keeps none. */
  function Counted(entries: Entries, key: string, window: int, now: int): Entries {
    if IsLive(entries, key, now) then entries[key := entries[key].(count := entries[key].count + 1)]
    else if window <= 0 then entries - {key}
    else entries[key := Entry(1, now + window * SECOND)]
  }

  function CountAt(entries: Entries, key: string, now: int): int {
    if IsLive(entries, key, now) then entries[key].count + 1 else 1
  }

  function DecisionFor(entries: Entries, key: string, limit: int, window: int, now: int): Decision {
    if CountAt(entries, key, now) <= limit then Allowed
    else
      var after := Counted(entries, key, window, now);
      Limited(if key in after then SecondsLeft(after[key], now) else NO_KEY)
  }

  /** What `TTL` answers for a key that is not there. */
  const NO_KEY := -2

  class Redis {
    var entries: Entries

    constructor ()
      ensures entries == map[]
    {
      entries := map[];
    }

    /** `INCR`. A counter that is not there starts at nothing; the script then sets its expiry, as
        part of the same atomic step. */
    method Increment(key: string, now: int) returns (count: int)
      modifies this
      ensures count == CountAt(old(entries), key, now)
      ensures entries ==
        old(entries)[key := Entry(count, if IsLive(old(entries), key, now) then old(entries)[key].expires else now)]
    {
      if IsLive(entries, key, now) {
        count := entries[key].count + 1;
        entries := entries[key := entries[key].(count := count)];
      } else {
        count := 1;
        entries := entries[key := Entry(1, now)];
      }
    }

    method Expire(key: string, seconds: int, now: int)
      modifies this
      ensures entries == if key !in old(entries) then old(entries)
                         else if seconds <= 0 then old(entries) - {key}
                         else old(entries)[key := old(entries)[key].(expires := now + seconds * SECOND)]
    {
      if key in entries {
        entries := if seconds <= 0 then entries - {key}
                   else entries[key := entries[key].(expires := now + seconds * SECOND)];
      }
    }

    method TimeToLive(key: string, now: int) returns (ttl: int)
      ensures ttl == if key in entries then SecondsLeft(entries[key], now) else NO_KEY
    {
      ttl := if key in entries then SecondsLeft(entries[key], now) else NO_KEY;
    }

    /** The script's three commands in one step, and the decision on what they return. */
    method CheckKey(key: string, limit: int, window: int, now: int) returns (d: Decision)
      requires InUse(entries)
      modifies this
      ensures entries == Counted(old(entries), key, window, now) && InUse(entries)
      ensures d == DecisionFor(old(entries), key, limit, window, now)
    {
      var count := Increment(key, now);
      if count == 1 {
        Expire(key, window, now);
      }
      var ttl := TimeToLive(key, now);
      d := if count > limit then Limited(ttl) else Allowed;
    }
  }

  // ..... Runs .....

  datatype Request = Request(key: string, at: int)

  predicate InOrder(requests: seq<Request>) {
    forall i, j :: 0 <= i <= j < |requests| ==> requests[i].at <= requests[j].at
  }

  function After(requests: seq<Request>, window: int): Entries {
    if requests == [] then map[]
    else
      var n := |requests| - 1;
      Counted(After(requests[..n], window), requests[n].key, window, requests[n].at)
  }

  /** Whether the last of the requests is admitted: the decision that is made on it. */
  predicate LastAdmitted(requests: seq<Request>, limit: int, window: int)
    requires requests != []
  {
    var n := |requests| - 1;
    DecisionFor(After(requests[..n], window), requests[n].key, limit, window, requests[n].at) == Allowed
  }

  /** How many requests of a key are admitted in a span, its two ends included. */
  function AdmittedIn(requests: seq<Request>, limit: int, window: int, key: string, from: int, to: int): nat {
    if requests == [] then 0
    else
      var last := requests[|requests| - 1];
      AdmittedIn(requests[..|requests| - 1], limit, window, key, from, to)
      + if last.key == key && from <= last.at <= to && LastAdmitted(requests, limit, window) then 1 else 0
  }

  function Min(a: int, b: int): int { if a < b then a else b }

  predicate InUse(entries: Entries) { forall k :: k in entries ==> entries[k].count >= 1 }

  /** What a key's counter says about those of its requests, none later than a window after `from`,
      that are admitted from then on. When the counter was created before `from`, the request that
      created it is not one of them. When it was created later, at most one window before it reaches
      back as far as `from`, and the request that created that one does not. */
  predicate Bounded(requests: seq<Request>, limit: int, window: int, key: string, from: int) {
    var entries, n := After(requests, window), AdmittedIn(requests, limit, window, key, from, from + window * SECOND);
    && InUse(entries)
    && (requests != [] && requests[|requests| - 1].at < from ==> n == 0)
    && if key !in entries then n == 0
       else
         var created := entries[key].expires - window * SECOND;
         && requests != [] && created <= requests[|requests| - 1].at
         && n <= Min(entries[key].count, limit) + if created < from then -1 else limit - 1
  }

  lemma {:induction false} WindowsAreBounded(requests: seq<Request>, limit: int, window: int, key: string, from: int)
    requires InOrder(requests) && limit >= 1 && window >= 1
    requires requests != [] ==> requests[|requests| - 1].at <= from + window * SECOND
    ensures Bounded(requests, limit, window, key, from)
    decreases |requests|
  {
    if requests != [] {
      var n := |requests| - 1;
      assert InOrder(requests[..n]);
      if n > 0 { assert requests[n - 1].at <= requests[n].at; }
      WindowsAreBounded(requests[..n], limit, window, key, from);
    }
  }

  /** For any requests of any mix of keys, in order of time, at most `2 * limit - 1` of one key's are
      admitted in any span as long as a window, its two ends included. */
  lemma {:induction false} SpanBound(requests: seq<Request>, limit: int, window: int, key: string, from: int)
    requires InOrder(requests) && limit >= 1 && window >= 1
    ensures AdmittedIn(requests, limit, window, key, from, from + 1000 * window) <= 2 * limit - 1
    decreases |requests|
  {
    if requests != [] && requests[|requests| - 1].at > from + window * SECOND {
      assert InOrder(requests[..|requests| - 1]);
      SpanBound(requests[..|requests| - 1], limit, window, key, from);
    } else {
      WindowsAreBounded(requests, limit, window, key, from);
    }
  }

  // ..... One window .....

  lemma {:induction false} NothingLater(
    requests: seq<Request>, limit: int, window: int, key: string, from: int, to: int)
    requires InOrder(requests) && window >= 1
    requires key in After(requests, window) ==> After(requests, window)[key].expires < from
    ensures AdmittedIn(requests, limit, window, key, from, to) == 0
    decreases |requests|
  {
    if requests != [] {
      assert InOrder(requests[..|requests| - 1]);
      NothingLater(requests[..|requests| - 1], limit, window, key, from, to);
    }
  }

  /** How many requests of a key are made in a span, admitted or not. */
  function MadeIn(requests: seq<Request>, key: string, from: int, to: int): nat {
    if requests == [] then 0
    else
      var last := requests[|requests| - 1];
      MadeIn(requests[..|requests| - 1], key, from, to) + if last.key == key && from <= last.at <= to then 1 else 0
  }

  lemma {:induction false} NoneMadeLater(requests: seq<Request>, window: int, key: string, from: int, to: int)
    requires InOrder(requests) && window >= 1
    requires key in After(requests, window) ==> After(requests, window)[key].expires < from
    ensures MadeIn(requests, key, from, to) == 0
    decreases |requests|
  {
    if requests != [] {
      assert InOrder(requests[..|requests| - 1]);
      NoneMadeLater(requests[..|requests| - 1], window, key, from, to);
    }
  }

  /** A counter counts the requests its key has made since it was created, of which the first `limit` and
      no others are admitted: their number is admitted, and the latest request is admitted exactly when
      it is among them. */
  lemma {:induction false} WindowAdmitsFirst(requests: seq<Request>, limit: int, window: int, key: string)
    requires InOrder(requests) && limit >= 0 && window >= 1 && key in After(requests, window)
    ensures var e := After(requests, window)[key];
      var created := e.expires - 1000 * window;
      && requests != [] && created <= requests[|requests| - 1].at
      && e.count == MadeIn(requests, key, created, e.expires)
      && AdmittedIn(requests, limit, window, key, created, e.expires) == Min(e.count, limit)
      && (requests[|requests| - 1].key == key ==> (LastAdmitted(requests, limit, window) <==> e.count <= limit))
    decreases |requests|
  {
    hide InOrder;
    var n := |requests| - 1;
    PrefixInOrder(requests);
    var before, at := After(requests[..n], window), requests[n].at;
    if key in before { WindowAdmitsFirst(requests[..n], limit, window, key); }
    if requests[n].key == key && !IsLive(before, key, at) {
      NothingLater(requests[..n], limit, window, key, at, at + window * SECOND);
      NoneMadeLater(requests[..n], window, key, at, at + window * SECOND);
    }
  }

  lemma PrefixInOrder(requests: seq<Request>)
    requires InOrder(requests) && requests != []
    ensures InOrder(requests[..|requests| - 1])
    ensures |requests| > 1 ==> requests[..|requests| - 1][|requests| - 2].at <= requests[|requests| - 1].at
  {
  }

  // ..... The bound is met .....

  function Repeated(key: string, at: int, n: nat): seq<Request> {
    seq(n, i => Request(key, at))
  }

  /** While a counter lasts, its requests are admitted up to the limit. */
  lemma {:induction false} BurstAdmitted(
    requests: seq<Request>, limit: int, window: int, key: string, at: int, n: nat, from: int, to: int)
    requires window >= 1 && from <= at <= to
    requires n > 0 ==> CountAt(After(requests, window), key, at) + n - 1 <= limit
    ensures var more := requests + Repeated(key, at, n);
      && AdmittedIn(more, limit, window, key, from, to) == AdmittedIn(requests, limit, window, key, from, to) + n
      && (n > 0 ==>
           && key in After(more, window)
           && After(more, window)[key] ==
                Entry(CountAt(After(requests, window), key, at) + n - 1,
                      if IsLive(After(requests, window), key, at) then After(requests, window)[key].expires
                      else at + window * SECOND))
    decreases n
  {
    hide AdmittedIn, After, Repeated;
    NoneRepeated(key, at, requests);
    if n > 0 {
      var before := requests + Repeated(key, at, n - 1);
      BurstAdmitted(requests, limit, window, key, at, n - 1, from, to);
      LastOf(before, Request(key, at), limit, window, key, from, to);
      OneMoreRepeated(key, at, n, requests);
    }
  }

  lemma LastOf(before: seq<Request>, r: Request, limit: int, window: int, key: string, from: int, to: int)
    ensures After(before + [r], window) == Counted(After(before, window), r.key, window, r.at)
    ensures AdmittedIn(before + [r], limit, window, key, from, to)
         == AdmittedIn(before, limit, window, key, from, to)
            + if r.key == key && from <= r.at <= to && CountAt(After(before, window), key, r.at) <= limit then 1 else 0
  {
    assert (before + [r])[..|before|] == before;
  }

  lemma NoneRepeated(key: string, at: int, requests: seq<Request>)
    ensures requests + Repeated(key, at, 0) == requests
  {
  }

  lemma OneMoreRepeated(key: string, at: int, n: nat, requests: seq<Request>)
    requires n > 0
    ensures requests + Repeated(key, at, n) == requests + Repeated(key, at, n - 1) + [Request(key, at)]
  {
    assert Repeated(key, at, n) == Repeated(key, at, n - 1) + [Request(key, at)];
  }

  /** One request, the rest of its limit as its window ends, and a full limit an instant later. */
  function Worst(limit: int, window: int, key: string): seq<Request>
    requires limit >= 1
  {
    [Request(key, 0)] + Repeated(key, window * SECOND, limit - 1) + Repeated(key, window * SECOND + 1, limit)
  }

  lemma WorstInOrder(limit: int, window: int, key: string)
    requires limit >= 1 && window >= 1
    ensures InOrder(Worst(limit, window, key))
  {
    var w := Worst(limit, window, key);
    forall i, j | 0 <= i <= j < |w|
      ensures w[i].at <= w[j].at
    {
      assert w[i].at == if i == 0 then 0 else if i < limit then window * SECOND else window * SECOND + 1;
      assert w[j].at == if j == 0 then 0 else if j < limit then window * SECOND else window * SECOND + 1;
    }
  }

  /** The bound cannot be lowered. */
  lemma SpanBoundIsSharp(limit: int, window: int, key: string)
    requires limit >= 1 && window >= 1
    ensures var worst := Worst(limit, window, key);
      InOrder(worst) && AdmittedIn(worst, limit, window, key, 1, 1 + 1000 * window) == 2 * limit - 1
  {
    hide AdmittedIn, InOrder, Repeated;
    var end := window * SECOND;
    var one, two := [Request(key, 0)], Repeated(key, end, limit - 1);
    WorstInOrder(limit, window, key);
    OneRequest(limit, window, key);
    BurstAdmitted(one, limit, window, key, end, limit - 1, 1, 1 + end);
    if limit == 1 { NoneRepeated(key, end, one); }
    BurstAdmitted(one + two, limit, window, key, end + 1, limit, 1, 1 + end);
  }

  lemma OneRequest(limit: int, window: int, key: string)
    requires window >= 1
    ensures var one := [Request(key, 0)];
      && After(one, window) == map[key := Entry(1, window * SECOND)]
      && AdmittedIn(one, limit, window, key, 1, 1 + window * SECOND) == 0
  {
    assert [Request(key, 0)][..0] == [];
  }

  // ..... One window, and other keys .....

  function Only(requests: seq<Request>, key: string): seq<Request> {
    if requests == [] then []
    else
      var n := |requests| - 1;
      Only(requests[..n], key) + if requests[n].key == key then [requests[n]] else []
  }

  predicate SameAt(a: Entries, b: Entries, key: string) {
    (key in a <==> key in b) && (key in a ==> a[key] == b[key])
  }

  lemma CountedSame(a: Entries, b: Entries, key: string, window: int, at: int)
    requires SameAt(a, b, key)
    ensures SameAt(Counted(a, key, window, at), Counted(b, key, window, at), key)
    ensures CountAt(a, key, at) == CountAt(b, key, at)
  {
  }

  lemma CountedElsewhere(a: Entries, key: string, other: string, window: int, at: int)
    requires other != key
    ensures SameAt(Counted(a, other, window, at), a, key)
  {
  }

  /** A key's counter, and which of its requests are admitted, are what they would be if nobody else
      had made any. */
  lemma {:induction false} KeysIndependent(
    requests: seq<Request>, limit: int, window: int, key: string, from: int, to: int)
    ensures SameAt(After(requests, window), After(Only(requests, key), window), key)
    ensures AdmittedIn(requests, limit, window, key, from, to)
         == AdmittedIn(Only(requests, key), limit, window, key, from, to)
    decreases |requests|
  {
    hide After, AdmittedIn, Counted, CountAt, SameAt;
    if requests == [] {
      NothingAlike(key, window);
    } else {
      var n := |requests| - 1;
      var before, only, r := requests[..n], Only(requests[..n], key), requests[n];
      KeysIndependent(before, limit, window, key, from, to);
      assert requests == before + [r];
      LastOf(before, r, limit, window, key, from, to);
      if r.key == key {
        LastOf(only, r, limit, window, key, from, to);
        CountedSame(After(before, window), After(only, window), key, window, r.at);
      } else {
        assert only + [] == only;
        CountedElsewhere(After(before, window), key, r.key, window, r.at);
        Alike(After(requests, window), After(before, window), After(only, window), key);
      }
    }
  }

  lemma NothingAlike(key: string, window: int)
    ensures SameAt(After([], window), After([], window), key)
  {
  }

  lemma Alike(a: Entries, b: Entries, c: Entries, key: string)
    requires SameAt(a, b, key) && SameAt(b, c, key)
    ensures SameAt(a, c, key)
  {
  }

  /** A window of no length keeps no counter, so that every request is the first: whatever the traffic
      before it, a request is allowed exactly when the limit admits any. */
  lemma {:induction false} NoWindowNeverLimits(requests: seq<Request>, window: int, key: string, limit: int, now: int)
    requires window <= 0
    ensures After(requests, window) == map[]
    ensures var d := DecisionFor(After(requests, window), key, limit, window, now);
      (d.Allowed? <==> limit >= 1) && (d.Limited? ==> RetryAfter(d) == Some(1))
    decreases |requests|
  {
    if requests != [] {
      NoWindowNeverLimits(requests[..|requests| - 1], window, key, limit, now);
    }
  }

  /** The seconds the response advertises, none when the request is allowed. */
  function RetryAfter(d: Decision): (r: Option<int>)
    ensures r.Some? ==> r.value >= 1
  {
    match d
    case Allowed => None
    case Limited(retryAfter) => Some(if retryAfter < 1 then 1 else retryAfter)
  }

  /** A limited caller who waits as long as the response says is admitted exactly when the seconds left
      were rounded up or there was less than one; one who waits a second more always is. */
  lemma RetryAfterSufficesIff(entries: Entries, key: string, limit: int, window: int, now: int)
    requires limit >= 1 && window >= 1 && DecisionFor(entries, key, limit, window, now).Limited?
    ensures var told := RetryAfter(DecisionFor(entries, key, limit, window, now)).value;
      var after, left := Counted(entries, key, window, now), entries[key].expires - now;
      && (DecisionFor(after, key, limit, window, now + told * 1000).Allowed?
          <==> left % 1000 >= 500 || left < 1000)
      && DecisionFor(after, key, limit, window, now + (told + 1) * 1000).Allowed?
  {
  }
}
