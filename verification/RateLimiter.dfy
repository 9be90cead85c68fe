/**
 * The fixed-window rate limiter: how many attempts any stretch of time can let through, how
 * long a refused caller has to wait, and which budgets are really separate.
 */
module RateLimiter {
  import opened Wrappers

  datatype Options = Options(limit: nat, windowMs: int)

  datatype Bucket = Bucket(count: nat, windowStartedAt: int)

  datatype Verdict = Verdict(allowed: bool, remaining: nat, retryAfterMs: int)

  type Buckets = map<string, Bucket>

  function BucketId(scope: string, key: string): string {
    scope + "::" + key
  }

  /** The bucket in force: a missing or run-out one starts afresh. */
  function BucketFor(o: Options, buckets: Buckets, id: string, now: int): Bucket {
    if id !in buckets || now - buckets[id].windowStartedAt >= o.windowMs then Bucket(0, now) else buckets[id]
  }

  function VerdictFor(o: Options, bucket: Bucket, now: int): Verdict {
    var allowed := bucket.count <= o.limit;
    Verdict(allowed,
            if allowed then o.limit - bucket.count else 0,
            if allowed then 0 else Max(1, o.windowMs - (now - bucket.windowStartedAt)))
  }

  function Consume(o: Options, buckets: Buckets, id: string, now: int): (Verdict, Buckets) {
    var bucket := BucketFor(o, buckets, id, now);
    var spent := bucket.(count := bucket.count + 1);
    (VerdictFor(o, spent, now), buckets[id := spent])
  }

  function Peek(o: Options, buckets: Buckets, id: string, now: int): (Verdict, Buckets) {
    var bucket := BucketFor(o, buckets, id, now);
    (VerdictFor(o, bucket, now), buckets[id := bucket])
  }

  class MemoryRateLimiter {
    const options: Options
    var buckets: Buckets

    constructor (options: Options)
      ensures this.options == options && buckets == map[]
    {
      this.options := options;
      buckets := map[];
    }

    method CurrentBucket(id: string, now: int) returns (bucket: Bucket)
      modifies this
      ensures bucket == BucketFor(options, old(buckets), id, now)
      ensures buckets == old(buckets)[id := bucket]
    {
      if id !in buckets || now - buckets[id].windowStartedAt >= options.windowMs {
        buckets := buckets[id := Bucket(0, now)];
      }
      bucket := buckets[id];
    }

    method TryConsume(scope: string, key: string, now: int) returns (v: Verdict)
      modifies this
      ensures (v, buckets) == Consume(options, old(buckets), BucketId(scope, key), now)
    {
      var id := BucketId(scope, key);
      var bucket := CurrentBucket(id, now);
      bucket := bucket.(count := bucket.count + 1);
      buckets := buckets[id := bucket];
      assert old(buckets)[id := BucketFor(options, old(buckets), id, now)][id := bucket] == old(buckets)[id := bucket];
      v := VerdictFor(options, bucket, now);
    }

    method Inspect(scope: string, key: string, now: int) returns (v: Verdict)
      modifies this
      ensures (v, buckets) == Peek(options, old(buckets), BucketId(scope, key), now)
    {
      var bucket := CurrentBucket(BucketId(scope, key), now);
      v := VerdictFor(options, bucket, now);
    }

    method Reset(scope: string, key: string)
      modifies this
      ensures buckets == old(buckets) - {BucketId(scope, key)}
    {
      buckets := buckets - {BucketId(scope, key)};
    }
  }

  // ---------------------------------------------------------------------------------------
  // Runs

  datatype Event =
    | Attempt(id: string, at: int)
    | Look(id: string, at: int)
    | Refund(id: string, at: int)

  function After(o: Options, buckets: Buckets, e: Event): Buckets {
    match e
    case Attempt(id, at) => Consume(o, buckets, id, at).1
    case Look(id, at) => Peek(o, buckets, id, at).1
    case Refund(id, _) => buckets - {id}
  }

  predicate InOrder(from: int, events: seq<Event>)
    decreases events
  {
    events == [] || (from <= events[0].at && InOrder(events[0].at, events[1..]))
  }

  /** How many attempts on `id` between the instants `a` and `b`, both included, are let through. */
  function LetThrough(o: Options, buckets: Buckets, events: seq<Event>, id: string, a: int, b: int): nat
    decreases events
  {
    if events == [] then 0
    else
      var e := events[0];
      (if e.Attempt? && e.id == id && a <= e.at <= b && Consume(o, buckets, id, e.at).0.allowed then 1 else 0)
      + LetThrough(o, After(o, buckets, e), events[1..], id, a, b)
  }

  function Left(o: Options, bucket: Bucket): nat {
    if bucket.count <= o.limit then o.limit - bucket.count else 0
  }

  /** What the bucket in force still allows of the interval from `a` to `a + windowMs`. */
  function Allowance(o: Options, buckets: Buckets, id: string, a: int): nat {
    if id !in buckets || buckets[id].windowStartedAt + o.windowMs <= a then 2 * o.limit
    else if buckets[id].windowStartedAt <= a then Left(o, buckets[id]) + o.limit
    else if buckets[id].windowStartedAt <= a + o.windowMs then Left(o, buckets[id])
    else 0
  }

  lemma {:induction false} LetThroughBounded(o: Options, buckets: Buckets, events: seq<Event>, id: string, a: int,
                                             from: int)
    requires 0 < o.windowMs && InOrder(from, events)
    requires id in buckets ==> buckets[id].windowStartedAt <= from
    requires forall i :: 0 <= i < |events| ==> !(events[i].Refund? && events[i].id == id)
    ensures LetThrough(o, buckets, events, id, a, a + o.windowMs) <= Allowance(o, buckets, id, a)
    decreases events
  {
    if events != [] {
      var e := events[0];
      var buckets' := After(o, buckets, e);
      LetThroughBounded(o, buckets', events[1..], id, a, e.at);
    }
  }

  /**
   * Whatever else happens on the limiter, any closed interval as long as a window lets at
   * most twice the limit through for one budget that is not refunded.
   */
  lemma AtMostTwiceTheLimit(o: Options, events: seq<Event>, id: string, a: int, from: int)
    requires 0 < o.windowMs && InOrder(from, events)
    requires forall i :: 0 <= i < |events| ==> !(events[i].Refund? && events[i].id == id)
    ensures LetThrough(o, map[], events, id, a, a + o.windowMs) <= 2 * o.limit
  {
    LetThroughBounded(o, map[], events, id, a, from);
  }

  function Burst(id: string, at: int, n: nat): seq<Event> {
    if n == 0 then [] else [Attempt(id, at)] + Burst(id, at, n - 1)
  }

  lemma BurstStep(id: string, at: int, n: nat, later: seq<Event>)
    requires 0 < n
    ensures var all := Burst(id, at, n) + later;
            all != [] && all[0] == Attempt(id, at) && all[1..] == Burst(id, at, n - 1) + later
  {
  }

  lemma {:induction false} BurstInOrder(id: string, at: int, n: nat, from: int, later: seq<Event>)
    requires from <= at && InOrder(at, later)
    ensures InOrder(from, Burst(id, at, n) + later)
    decreases n
  {
    if n == 0 {
      assert [] + later == later;
      if later != [] {
        assert from <= later[0].at;
      }
    } else {
      BurstInOrder(id, at, n - 1, at, later);
      hide Burst;
      BurstStep(id, at, n, later);
    }
  }

  lemma {:induction false} BurstLetThrough(o: Options, buckets: Buckets, id: string, at: int, n: nat, later: seq<Event>,
                                           a: int, b: int)
    requires 0 < o.windowMs && a <= at <= b
    requires BucketFor(o, buckets, id, at).count + n <= o.limit
    ensures LetThrough(o, buckets, Burst(id, at, n) + later, id, a, b) ==
            n + LetThrough(o, AfterBurst(o, buckets, id, at, n), later, id, a, b)
    decreases n
  {
    if n == 0 {
      assert [] + later == later;
    } else {
      assert (Burst(id, at, n) + later)[1..] == Burst(id, at, n - 1) + later;
      BurstLetThrough(o, Consume(o, buckets, id, at).1, id, at, n - 1, later, a, b);
    }
  }

  function AfterBurst(o: Options, buckets: Buckets, id: string, at: int, n: nat): Buckets
    decreases n
  {
    if n == 0 then buckets else AfterBurst(o, Consume(o, buckets, id, at).1, id, at, n - 1)
  }

  lemma {:induction false} AfterBurstStart(o: Options, buckets: Buckets, id: string, at: int, n: nat)
    requires 0 < o.windowMs && id in buckets &&
             buckets[id].windowStartedAt <= at < buckets[id].windowStartedAt + o.windowMs
    ensures id in AfterBurst(o, buckets, id, at, n)
    ensures AfterBurst(o, buckets, id, at, n)[id].windowStartedAt == buckets[id].windowStartedAt
    decreases n
  {
    if n > 0 {
      AfterBurstStart(o, Consume(o, buckets, id, at).1, id, at, n - 1);
    }
  }

  /** The bound is met: two bursts one window apart pass whole, inside one closed interval. */
  lemma TwiceTheLimitHappens(o: Options, id: string, a: int)
    requires 0 < o.windowMs && 0 < o.limit
    ensures var events := Burst(id, a, o.limit) + Burst(id, a + o.windowMs, o.limit);
            InOrder(a, events) && LetThrough(o, map[], events, id, a, a + o.windowMs) == 2 * o.limit
  {
    var b := a + o.windowMs;
    var second := Burst(id, b, o.limit);
    assert second + [] == second;
    BurstInOrder(id, b, o.limit, a, []);
    BurstInOrder(id, b, o.limit, b, []);
    BurstInOrder(id, a, o.limit, a, second);
    BurstLetThrough(o, map[], id, a, o.limit, second, a, b);
    AfterBurstStart(o, Consume(o, map[], id, a).1, id, a, o.limit - 1);
    BurstLetThrough(o, AfterBurst(o, map[], id, a, o.limit), id, b, o.limit, [], a, b);
  }

  // ---------------------------------------------------------------------------------------
  // Waiting

  /**
   * The advertised wait is exact: on a key left idle after a refusal, the next attempt is
   * admitted from that wait on and not before; never, when the limit is zero.
   */
  lemma RetryAfterIsExact(o: Options, buckets: Buckets, id: string, now: int, wait: nat)
    requires 0 < o.windowMs && (id in buckets ==> buckets[id].windowStartedAt <= now)
    requires !Consume(o, buckets, id, now).0.allowed
    ensures var (v, buckets') := Consume(o, buckets, id, now);
            Consume(o, buckets', id, now + wait).0.allowed <==> v.retryAfterMs <= wait && 0 < o.limit
  {
  }

  lemma {:induction false} AfterBurstCount(o: Options, buckets: Buckets, id: string, at: int, n: nat)
    requires id in buckets && at - buckets[id].windowStartedAt < o.windowMs
    ensures var b' := AfterBurst(o, buckets, id, at, n);
            id in b' && b'[id] == buckets[id].(count := buckets[id].count + n)
    decreases n
  {
    if n > 0 {
      AfterBurstCount(o, Consume(o, buckets, id, at).1, id, at, n - 1);
    }
  }

  /** What is reported as remaining is how many more attempts would be admitted at that instant. */
  lemma RemainingIsExact(o: Options, buckets: Buckets, id: string, now: int, k: nat)
    requires 0 < o.windowMs
    ensures var (v, buckets') := Consume(o, buckets, id, now);
            Consume(o, AfterBurst(o, buckets', id, now, k), id, now).0.allowed <==> k < v.remaining
  {
    AfterBurstCount(o, Consume(o, buckets, id, now).1, id, now, k);
  }

  /**
   * Looking at a budget reports the same without spending any of it. Its `allowed` says more
   * than the next attempt will get when the limit is exactly used up; and looking at a budget
   * that is idle starts its window.
   */
  lemma LookingExactly(o: Options, buckets: Buckets, id: string, now: int, k: nat, later: int)
    requires 0 < o.windowMs && now <= later < now + o.windowMs
    ensures var (v, buckets') := Peek(o, buckets, id, now);
            var next := Consume(o, buckets, id, now).0;
            && (Consume(o, AfterBurst(o, buckets', id, now, k), id, now).0.allowed <==> k < v.remaining)
            && Consume(o, buckets', id, now) == Consume(o, buckets, id, now)
            && (next.allowed ==> v.allowed)
            && (v.allowed && !next.allowed <==> BucketFor(o, buckets, id, now).count == o.limit)
            && (BucketFor(o, buckets, id, now) == Bucket(0, now) ==>
                  BucketFor(o, buckets', id, later) == Bucket(0, now))
            && (forall other :: other != id ==>
                  (other in buckets' <==> other in buckets) && (other in buckets ==> buckets'[other] == buckets[other]))
  {
    var buckets' := Peek(o, buckets, id, now).1;
    AfterBurstCount(o, buckets', id, now, k);
    assert Consume(o, buckets', id, now).1 == Consume(o, buckets, id, now).1;
  }

  /** The `Retry-After` header in whole seconds. */
  function RetryAfterSeconds(retryAfterMs: int): int {
    Max(1, (retryAfterMs + 999) / 1000)
  }

  /** Rounding to seconds never undershoots, and is the least positive number of seconds that does not. */
  lemma HeaderNeverUndershoots(ms: int, seconds: int)
    ensures ms <= 1000 * RetryAfterSeconds(ms)
    ensures 1 <= seconds && ms <= 1000 * seconds ==> RetryAfterSeconds(ms) <= seconds
  {
  }

  // ---------------------------------------------------------------------------------------
  // Separate budgets

  /**
   * Two scopes can end up on one budget exactly when one of them, with the separator, is a
   * prefix of the other with it; then some pair of keys does.
   */
  lemma ScopesShareExactly(s: string, t: string)
    ensures (exists k, l :: BucketId(s, k) == BucketId(t, l)) <==> s + "::" <= t + "::" || t + "::" <= s + "::"
  {
    var a, b := s + "::", t + "::";
    forall k, l | BucketId(s, k) == BucketId(t, l)
      ensures a <= b || b <= a
    {
      var id := BucketId(s, k);
      assert id[..|a|] == a && id[..|b|] == b;
      if |a| <= |b| {
        assert a == b[..|a|];
      } else {
        assert b == a[..|b|];
      }
    }
    if a <= b {
      assert BucketId(s, b[|a|..]) == BucketId(t, "");
    } else if b <= a {
      assert BucketId(s, "") == BucketId(t, a[|b|..]);
    }
  }

  const SERVICE_SCOPES: seq<string> := [
    "credentials:identifier", "credentials:ip", "credentials:change:subject", "credentials:change:ip",
    "password-reset:issue:subject", "password-reset:issue:ip", "password-reset:redeem:ip"
  ]

  lemma ScopesApart(i: nat, j: nat, k: string, l: string)
    requires i < j < |SERVICE_SCOPES|
    ensures BucketId(SERVICE_SCOPES[i], k) != BucketId(SERVICE_SCOPES[j], l)
  {
    var at := if i < 4 && 4 <= j then 0
              else if j < 4 then (if j == 1 then 13 else if i == 2 then 19 else 12)
              else if j == 5 then 21 else 15;
    assert SERVICE_SCOPES[i][at] != SERVICE_SCOPES[j][at];
    assert BucketId(SERVICE_SCOPES[i], k)[at] == SERVICE_SCOPES[i][at];
    assert BucketId(SERVICE_SCOPES[j], l)[at] == SERVICE_SCOPES[j][at];
  }

  /** Among the scopes the services use, two budgets are the same exactly when scope and key are. */
  lemma ServiceBudgetsSeparate(i: nat, j: nat, k: string, l: string)
    requires i < |SERVICE_SCOPES| && j < |SERVICE_SCOPES|
    ensures BucketId(SERVICE_SCOPES[i], k) == BucketId(SERVICE_SCOPES[j], l) <==> i == j && k == l
  {
    if i < j {
      ScopesApart(i, j, k, l);
    } else if j < i {
      ScopesApart(j, i, l, k);
    } else {
      var scope := SERVICE_SCOPES[i];
      assert BucketId(scope, k)[|scope| + 2..] == k && BucketId(scope, l)[|scope| + 2..] == l;
    }
  }
}
