/** The token buckets in front of the exchange APIs (cryptoswarms/adapters/rate_limiter.py).
    Clock readings are inputs; the monotonic clock gives them in nondecreasing order. */
module RateLimiter {
  import opened Common

  /** `rate` is capacity / refill_seconds, in tokens per second. */
  datatype Bucket = Bucket(capacity: int, rate: real, tokens: real, last: real)

  predicate ValidBucket(b: Bucket) {
    b.capacity > 0 && b.rate > 0.0 && 0.0 <= b.tokens <= b.capacity as real
  }

  /** Tokens earned in dt seconds. */
  function Gain(dt: real, rate: real): real {
    dt * rate
  }

  function Refill(b: Bucket, now: real): Bucket
    requires ValidBucket(b)
  {
    b.(tokens := MinReal(b.capacity as real, b.tokens + Gain(now - b.last, b.rate)), last := now)
  }

  lemma Scale(x: real, y: real, r: real)
    requires r >= 0.0 && x <= y
    ensures Gain(x, r) <= Gain(y, r) && Gain(0.0, r) == 0.0
  {
  }

  lemma GainOfCapacity(dt: real, capacity: real, seconds: real)
    requires seconds > 0.0
    ensures Gain(dt, capacity / seconds) == dt * capacity / seconds
  {
  }

  lemma RefillValid(b: Bucket, now: real)
    requires ValidBucket(b) && b.last <= now
    ensures ValidBucket(Refill(b, now)) && Refill(b, now).rate == b.rate
    ensures Refill(b, now).tokens <= b.tokens + Gain(now - b.last, b.rate)
  {
    Scale(0.0, now - b.last, b.rate);
  }

  lemma Split(s: real, m: real, t: real, r: real)
    ensures Gain(m - s, r) + Gain(t - m, r) == Gain(t - s, r)
  {
  }

  /** Refilling in two parts is refilling once. */
  lemma RefillAdditive(b: Bucket, t: real, u: real)
    requires ValidBucket(b) && b.last <= t <= u
    ensures ValidBucket(Refill(b, t))
    ensures Refill(Refill(b, t), u) == Refill(b, u)
  {
    RefillValid(b, t);
    Split(b.last, t, u, b.rate);
    Scale(0.0, u - t, b.rate);
  }

  // ---------------------------------------------------------------- runs

  /** `Read` is `available_tokens`; `Attempt` is one pass of the loop in `acquire`: refill, then take n
      tokens if they are there, otherwise go to sleep. */
  datatype Event = Read(at: real) | Attempt(at: real, n: nat)

  function Take(b: Bucket, e: Event): nat
    requires ValidBucket(b)
  {
    if e.Attempt? && e.n as real <= Refill(b, e.at).tokens then e.n else 0
  }

  function Step(b: Bucket, e: Event): Bucket
    requires ValidBucket(b)
  {
    var r := Refill(b, e.at);
    r.(tokens := r.tokens - Take(b, e) as real)
  }

  predicate Ordered(last: real, events: seq<Event>)
    decreases |events|
  {
    events == [] || (last <= events[0].at && Ordered(events[0].at, events[1..]))
  }

  lemma StepValid(b: Bucket, e: Event)
    requires ValidBucket(b) && b.last <= e.at
    ensures ValidBucket(Step(b, e)) && Step(b, e).rate == b.rate && Step(b, e).last == e.at
    ensures Step(b, e).capacity == b.capacity && Step(b, e).tokens <= Refill(b, e.at).tokens - Take(b, e) as real
  {
    RefillValid(b, e.at);
  }

  function After(b: Bucket, events: seq<Event>): (r: Bucket)
    requires ValidBucket(b) && Ordered(b.last, events)
    ensures ValidBucket(r)
    decreases |events|
  {
    if events == [] then b
    else
      StepValid(b, events[0]);
      After(Step(b, events[0]), events[1..])
  }

  /** Tokens granted at times in [s, t]. */
  function Granted(b: Bucket, events: seq<Event>, s: real, t: real): nat
    requires ValidBucket(b) && Ordered(b.last, events)
    decreases |events|
  {
    if events == [] then 0
    else
      StepValid(b, events[0]);
      (if s <= events[0].at <= t then Take(b, events[0]) else 0) + Granted(Step(b, events[0]), events[1..], s, t)
  }

  lemma {:induction false} NothingAfter(b: Bucket, events: seq<Event>, s: real, t: real)
    requires ValidBucket(b) && Ordered(b.last, events) && t < b.last
    ensures Granted(b, events, s, t) == 0
    decreases |events|
  {
    if events != [] {
      StepValid(b, events[0]);
      NothingAfter(Step(b, events[0]), events[1..], s, t);
    }
  }

  /** From any state, what is granted up to t is covered by the tokens in stock and the refill until t. */
  lemma {:induction false} StockBound(b: Bucket, events: seq<Event>, s: real, t: real)
    requires ValidBucket(b) && Ordered(b.last, events) && b.last <= t
    ensures Granted(b, events, s, t) as real <= b.tokens + Gain(t - b.last, b.rate)
    decreases |events|
  {
    if events == [] {
      Scale(0.0, t - b.last, b.rate);
    } else {
      var e := events[0];
      StepValid(b, e);
      RefillValid(b, e.at);
      if e.at <= t {
        StockBound(Step(b, e), events[1..], s, t);
        Split(b.last, e.at, t, b.rate);
      } else {
        NothingAfter(Step(b, e), events[1..], s, t);
        Scale(0.0, t - b.last, b.rate);
      }
    }
  }

  /** The rate limit: in every run and every window [s, t] at most capacity + (t - s) * rate tokens
      are granted. */
  lemma {:induction false} WindowBound(b: Bucket, events: seq<Event>, s: real, t: real)
    requires ValidBucket(b) && Ordered(b.last, events) && s <= t
    ensures Granted(b, events, s, t) as real <= b.capacity as real + Gain(t - s, b.rate)
    decreases |events|
  {
    Scale(0.0, t - s, b.rate);
    if events != [] {
      var e := events[0];
      StepValid(b, e);
      if e.at < s {
        WindowBound(Step(b, e), events[1..], s, t);
      } else if e.at <= t {
        RefillValid(b, e.at);
        StockBound(Step(b, e), events[1..], s, t);
        Scale(t - e.at, t - s, b.rate);
      } else {
        NothingAfter(Step(b, e), events[1..], s, t);
      }
    }
  }

  lemma {:induction false} LaterOrdered(last: real, events: seq<Event>, e: Event)
    requires Ordered(last, events + [e])
    ensures Ordered(last, events) && Until(last, events) <= e.at
    decreases |events|
  {
    if events == [] {
      assert events + [e] == [e];
    } else {
      ConsSnoc(events, e);
      LaterOrdered(events[0].at, events[1..], e);
    }
  }

  lemma {:induction false} AfterIsAt(b: Bucket, events: seq<Event>)
    requires ValidBucket(b) && Ordered(b.last, events)
    ensures After(b, events).last == Until(b.last, events)
    decreases |events|
  {
    if events != [] {
      StepValid(b, events[0]);
      AfterIsAt(Step(b, events[0]), events[1..]);
    }
  }

  /** What is granted, event by event: an attempt within the window that finds enough tokens gets exactly what it asks
      for, and nothing else gets anything. */
  lemma {:induction false} GrantedOneMore(b: Bucket, events: seq<Event>, e: Event, s: real, t: real)
    requires ValidBucket(b) && Ordered(b.last, events + [e])
    ensures Ordered(b.last, events) && After(b, events).last <= e.at
    ensures Granted(b, events + [e], s, t) == Granted(b, events, s, t)
      + if s <= e.at <= t && e.Attempt? && Refill(After(b, events), e.at).tokens >= e.n as real then e.n else 0
    decreases |events|
  {
    LaterOrdered(b.last, events, e);
    AfterIsAt(b, events);
    if events == [] {
      assert events + [e] == [e];
    } else {
      ConsSnoc(events, e);
      StepValid(b, events[0]);
      GrantedOneMore(Step(b, events[0]), events[1..], e, s, t);
    }
  }

  /** The bound is attained: a full bucket grants its capacity at s, and at t the k tokens that were earned since. */
  lemma BoundAttained(b: Bucket, s: real, t: real, k: nat)
    requires ValidBucket(b) && b.last <= s <= t && Refill(b, s).tokens == b.capacity as real
    requires Gain(t - s, b.rate) == k as real && k <= b.capacity
    ensures var events := [Attempt(s, b.capacity), Attempt(t, k)];
      Ordered(b.last, events) && Granted(b, events, s, t) as real == b.capacity as real + Gain(t - s, b.rate)
  {
    var events := [Attempt(s, b.capacity), Attempt(t, k)];
    var none: seq<Event> := [];
    assert none + [Attempt(s, b.capacity)] == [Attempt(s, b.capacity)];
    assert [Attempt(s, b.capacity)] + [Attempt(t, k)] == events;
    GrantedOneMore(b, none, Attempt(s, b.capacity), s, t);
    GrantedOneMore(b, [Attempt(s, b.capacity)], Attempt(t, k), s, t);
    EmptiedAndRefilled(b, s, t, k);
  }

  lemma EmptiedAndRefilled(b: Bucket, s: real, t: real, k: nat)
    requires ValidBucket(b) && b.last <= s <= t && Refill(b, s).tokens == b.capacity as real
    requires Gain(t - s, b.rate) == k as real && k <= b.capacity
    ensures Refill(After(b, [Attempt(s, b.capacity)]), t).tokens == k as real
  {
    var e := Attempt(s, b.capacity);
    assert [e][1..] == [];
    StepValid(b, e);
    assert After(b, [e]) == Step(b, e);
    assert Step(b, e).tokens == 0.0;
  }

  /** The run with the reads left out. */
  function WithoutReads(events: seq<Event>): seq<Event> {
    if events == [] then []
    else (if events[0].Read? then [] else [events[0]]) + WithoutReads(events[1..])
  }

  function Until(last: real, events: seq<Event>): real {
    if events == [] then last else events[|events| - 1].at
  }

  lemma {:induction false} OrderedEarlier(last: real, earlier: real, events: seq<Event>)
    requires Ordered(last, events) && earlier <= last
    ensures Ordered(earlier, events) && last <= Until(last, events)
    decreases |events|
  {
    if events != [] {
      OrderedEarlier(events[0].at, events[0].at, events[1..]);
    }
  }

  lemma {:induction false} WithoutReadsOrdered(last: real, events: seq<Event>)
    requires Ordered(last, events)
    ensures Ordered(last, WithoutReads(events))
    decreases |events|
  {
    if events != [] {
      WithoutReadsOrdered(events[0].at, events[1..]);
      var rest := WithoutReads(events[1..]);
      OrderedEarlier(events[0].at, last, rest);
      assert ([events[0]] + rest)[1..] == rest;
      assert [] + rest == rest;
    }
  }

  /** Two states that agree from their later instant on: they refill to the same bucket. */
  lemma StepAgrees(b: Bucket, c: Bucket, e: Event)
    requires ValidBucket(b) && ValidBucket(c) && b.last <= e.at && c.last <= e.at
    requires Refill(b, e.at) == Refill(c, e.at)
    ensures Step(b, e) == Step(c, e) && Take(b, e) == Take(c, e)
  {
  }

  /** Reads change nothing: without them every attempt gets the same answer in every window, and from the
      last event on the bucket holds the same tokens. */
  lemma {:induction false} ReadsChangeNothing(b: Bucket, c: Bucket, events: seq<Event>, s: real, t: real)
    requires ValidBucket(b) && ValidBucket(c) && c.last <= b.last && Refill(c, b.last) == b
    requires Ordered(b.last, events)
    ensures Ordered(c.last, WithoutReads(events))
    ensures Granted(c, WithoutReads(events), s, t) == Granted(b, events, s, t)
    ensures Refill(After(c, WithoutReads(events)), Until(b.last, events)) == After(b, events)
    decreases |events|
  {
    WithoutReadsOrdered(b.last, events);
    OrderedEarlier(b.last, c.last, WithoutReads(events));
    if events != [] {
      var e := events[0];
      StepValid(b, e);
      RefillAdditive(c, b.last, e.at);
      if e.Read? {
        assert WithoutReads(events) == WithoutReads(events[1..]);
        ReadsChangeNothing(Step(b, e), c, events[1..], s, t);
      } else {
        StepAgrees(b, c, e);
        StepValid(c, e);
        assert WithoutReads(events)[1..] == WithoutReads(events[1..]);
        RefillSame(Step(b, e));
        ReadsChangeNothing(Step(b, e), Step(c, e), events[1..], s, t);
      }
    }
  }

  lemma RefillSame(b: Bucket)
    requires ValidBucket(b)
    ensures Refill(b, b.last) == b
  {
    Scale(0.0, 0.0, b.rate);
  }

  // ---------------------------------------------------------------- waiting

  /** How long `acquire(n)` asks to sleep when it finds the bucket at time now short of tokens;
      `period` is refill_seconds / capacity, the seconds per token. */
  function WaitTime(b: Bucket, n: nat, period: real, now: real): real
    requires ValidBucket(b)
  {
    Gain(n as real - Refill(b, now).tokens, period)
  }

  /** The two divisions of the source are reciprocals. */
  lemma Reciprocal(capacity: int, refillSeconds: real)
    requires capacity > 0 && refillSeconds > 0.0
    ensures capacity as real / refillSeconds > 0.0 && refillSeconds / capacity as real > 0.0
    ensures (capacity as real / refillSeconds) * (refillSeconds / capacity as real) == 1.0
  {
  }

  /** A request within the capacity needs one sleep of the computed length, and less is not enough. */
  lemma OneFullSleep(b: Bucket, n: nat, period: real, now: real, wake: real)
    requires ValidBucket(b) && b.last <= now <= wake && period > 0.0 && b.rate * period == 1.0
    requires n <= b.capacity && Refill(b, now).tokens < n as real
    ensures WaitTime(b, n, period, now) > 0.0
    ensures Refill(b, wake).tokens >= n as real <==> wake >= now + WaitTime(b, n, period, now)
  {
    RefillValid(b, now);
    RefillAdditive(b, now, wake);
    var deficit := n as real - Refill(b, now).tokens;
    StrictScale(0.0, deficit, period);
    var wait := Gain(deficit, period);
    assert Gain(wait, b.rate) == deficit by {
      assert (deficit * period) * b.rate == deficit * (b.rate * period);
    }
    if wake - now >= wait {
      Scale(wait, wake - now, b.rate);
    } else {
      StrictScale(wake - now, wait, b.rate);
    }
  }

  lemma StrictScale(x: real, y: real, r: real)
    requires r > 0.0 && x < y
    ensures Gain(x, r) < Gain(y, r)
  {
  }

  /** `acquire(n)` can return if and only if n is within the capacity. */
  lemma AcquirableExactlyWhen(b: Bucket, n: nat)
    requires ValidBucket(b)
    ensures (exists t: real :: b.last <= t && Refill(b, t).tokens >= n as real) <==> n <= b.capacity
  {
    if n <= b.capacity {
      var wake := b.last + b.capacity as real / b.rate;
      assert Gain(wake - b.last, b.rate) == b.capacity as real;
      assert wake >= b.last && Refill(b, wake).tokens >= n as real;
    }
  }

  /** The sleeps that the first k failing passes ask for. */
  function Asked(b: Bucket, n: nat, period: real, readings: seq<real>, k: nat): real
    requires ValidBucket(b) && k <= |readings|
  {
    if k == 0 then 0.0 else Asked(b, n, period, readings, k - 1) + WaitTime(b, n, period, readings[k - 1])
  }

  /** If no sleep is cut short, the time reported as waited has really passed; if none is prolonged either, it is the
      time that passed. */
  lemma {:induction false} WaitedHasPassed(b: Bucket, n: nat, period: real, readings: seq<real>, k: nat)
    requires ValidBucket(b) && k < |readings|
    requires forall i :: 0 <= i < k ==> readings[i + 1] >= readings[i] + WaitTime(b, n, period, readings[i])
    ensures Asked(b, n, period, readings, k) <= readings[k] - readings[0]
    ensures (forall i :: 0 <= i < k ==> readings[i + 1] == readings[i] + WaitTime(b, n, period, readings[i])) ==>
      Asked(b, n, period, readings, k) == readings[k] - readings[0]
  {
    if k > 0 {
      WaitedHasPassed(b, n, period, readings, k - 1);
      assert readings[k - 1 + 1] >= readings[k - 1] + WaitTime(b, n, period, readings[k - 1]);
    }
  }

  /** After one full sleep the second pass finds enough. */
  lemma SecondPassGrants(b: Bucket, n: nat, period: real, readings: seq<real>)
    requires ValidBucket(b) && period > 0.0 && b.rate * period == 1.0 && Clock(b.last, readings)
    ensures n <= b.capacity && |readings| > 1 && readings[1] >= readings[0] + WaitTime(b, n, period, readings[0]) ==>
      Refill(b, readings[0]).tokens >= n as real || Refill(b, readings[1]).tokens >= n as real
  {
    if n <= b.capacity && |readings| > 1 && Refill(b, readings[0]).tokens < n as real {
      OneFullSleep(b, n, period, readings[0], readings[1]);
    }
  }

  predicate Clock(last: real, readings: seq<real>) {
    (forall i :: 0 <= i < |readings| ==> last <= readings[i])
    && (forall i, j :: 0 <= i <= j < |readings| ==> readings[i] <= readings[j])
  }

  class TokenBucket {
    const capacity: int
    const refillSeconds: real
    var tokens: real
    var lastRefill: real

    constructor (capacity: int, refillSeconds: real, now: real)
      requires capacity > 0 && refillSeconds > 0.0
      ensures this.capacity == capacity && this.refillSeconds == refillSeconds
      ensures Valid() && tokens == capacity as real && lastRefill == now
    {
      this.capacity, this.refillSeconds := capacity, refillSeconds;
      tokens, lastRefill := capacity as real, now;
      new;
      Reciprocal(capacity, refillSeconds);
    }

    function State(): Bucket
      requires refillSeconds > 0.0
      reads this
    {
      Bucket(capacity, capacity as real / refillSeconds, tokens, lastRefill)
    }

    function Period(): real
      requires capacity > 0
    {
      refillSeconds / capacity as real
    }

    ghost predicate Valid()
      reads this
    {
      refillSeconds > 0.0 && ValidBucket(State())
    }

    method RefillNow(now: real)
      requires Valid() && lastRefill <= now
      modifies this
      ensures Valid() && State() == Refill(old(State()), now) && lastRefill == now
      ensures old(tokens) + (now - old(lastRefill)) * capacity as real / refillSeconds >= capacity as real ==>
        tokens == capacity as real
      ensures old(tokens) + (now - old(lastRefill)) * capacity as real / refillSeconds <= capacity as real ==>
        tokens == old(tokens) + (now - old(lastRefill)) * capacity as real / refillSeconds
    {
      RefillValid(State(), now);
      var elapsed := now - lastRefill;
      var newTokens := Gain(elapsed, capacity as real / refillSeconds);
      GainOfCapacity(elapsed, capacity as real, refillSeconds);
      tokens := MinReal(capacity as real, tokens + newTokens);
      lastRefill := now;
    }

    method AvailableTokens(now: real) returns (r: real)
      requires Valid() && lastRefill <= now
      modifies this
      ensures Valid() && State() == Step(old(State()), Read(now)) && r == tokens
    {
      RefillNow(now);
      r := tokens;
    }

    /** `readings` are the clock readings the call gets, one per pass; `granted` is false when they run
        out while it still sleeps.  The first reading that finds enough tokens is the one that takes them. */
    method Acquire(n: nat, readings: seq<real>) returns (granted: bool, waited: real, passes: nat)
      requires Valid() && |readings| > 0 && Clock(lastRefill, readings)
      modifies this
      ensures Valid() && 1 <= passes <= |readings|
      ensures forall i :: 0 <= i < passes - 1 ==> Refill(old(State()), readings[i]).tokens < n as real
      ensures granted <==> Refill(old(State()), readings[passes - 1]).tokens >= n as real
      ensures !granted ==> passes == |readings|
      ensures State() == Step(old(State()), Attempt(readings[passes - 1], n)) && lastRefill == readings[passes - 1]
      ensures tokens == Refill(old(State()), readings[passes - 1]).tokens - if granted then n as real else 0.0
      ensures waited == Asked(old(State()), n, Period(), readings, if granted then passes - 1 else passes)
      ensures (n <= capacity && |readings| > 1
               && readings[1] >= readings[0] + WaitTime(old(State()), n, Period(), readings[0]))
        ==> granted && passes <= 2
    {
      ghost var b := State();
      Reciprocal(capacity, refillSeconds);
      SecondPassGrants(b, n, Period(), readings);
      waited := 0.0;
      RefillNow(readings[0]);
      passes := 1;
      while tokens < n as real
        invariant 1 <= passes <= |readings|
        invariant ValidBucket(b) && Valid() && State() == Refill(b, readings[passes - 1])
        invariant forall i :: 0 <= i < passes - 1 ==> Refill(b, readings[i]).tokens < n as real
        invariant waited == Asked(b, n, Period(), readings, passes - 1)
        decreases |readings| - passes
      {
        var deficit := n as real - tokens;
        var waitTime := Gain(deficit, Period());
        waited := waited + waitTime;
        if passes == |readings| {
          return false, waited, passes;
        }
        RefillAdditive(b, readings[passes - 1], readings[passes]);
        RefillNow(readings[passes]);
        passes := passes + 1;
      }
      tokens := tokens - n as real;
      granted := true;
    }
  }

  // ---------------------------------------------------------------- one limiter, many endpoints

  /** Endpoints without a bucket of their own share the default one. */
  function Route(buckets: set<string>, endpoint: string): string {
    if endpoint in buckets then endpoint else "default"
  }

  datatype Request = Request(endpoint: string, event: Event)

  /** The events that reach one bucket. */
  function Reaching(buckets: set<string>, key: string, requests: seq<Request>): seq<Event> {
    if requests == [] then []
    else (if Route(buckets, requests[0].endpoint) == key then [requests[0].event] else [])
         + Reaching(buckets, key, requests[1..])
  }

  predicate OrderedRequests(last: real, requests: seq<Request>)
    decreases |requests|
  {
    requests == [] || (last <= requests[0].event.at && OrderedRequests(requests[0].event.at, requests[1..]))
  }

  type Limits = map<string, Bucket>

  predicate ValidLimits(m: Limits, now: real) {
    "default" in m && forall k :: k in m ==> ValidBucket(m[k]) && m[k].last <= now
  }

  /** Tokens granted in [s, t] to the given endpoints. */
  function GrantedTo(m: Limits, now: real, requests: seq<Request>, endpoints: set<string>, s: real, t: real): nat
    requires ValidLimits(m, now) && OrderedRequests(now, requests)
    decreases |requests|
  {
    if requests == [] then 0
    else
      var r := requests[0];
      var k := Route(m.Keys, r.endpoint);
      StepValid(m[k], r.event);
      (if r.endpoint in endpoints && s <= r.event.at <= t then Take(m[k], r.event) else 0)
      + GrantedTo(m[k := Step(m[k], r.event)], r.event.at, requests[1..], endpoints, s, t)
  }

  lemma {:induction false} ReachingOrdered(buckets: set<string>, key: string, last: real, requests: seq<Request>)
    requires OrderedRequests(last, requests)
    ensures Ordered(last, Reaching(buckets, key, requests))
    decreases |requests|
  {
    if requests != [] {
      ReachingOrdered(buckets, key, requests[0].event.at, requests[1..]);
      var rest := Reaching(buckets, key, requests[1..]);
      OrderedEarlier(requests[0].event.at, last, rest);
      assert ([requests[0].event] + rest)[1..] == rest;
      assert [] + rest == rest;
    }
  }

  lemma {:induction false} GrantedToBucket(
      m: Limits, now: real, requests: seq<Request>, endpoints: set<string>, key: string, s: real, t: real)
    requires key in m && forall e :: e in endpoints ==> Route(m.Keys, e) == key
    requires ValidLimits(m, now) && OrderedRequests(now, requests)
    ensures Ordered(m[key].last, Reaching(m.Keys, key, requests))
    ensures GrantedTo(m, now, requests, endpoints, s, t) <= Granted(m[key], Reaching(m.Keys, key, requests), s, t)
    ensures (forall r :: r in requests && Route(m.Keys, r.endpoint) == key ==> r.endpoint in endpoints) ==>
      GrantedTo(m, now, requests, endpoints, s, t) == Granted(m[key], Reaching(m.Keys, key, requests), s, t)
    decreases |requests|
  {
    ReachingOrdered(m.Keys, key, now, requests);
    OrderedEarlier(now, m[key].last, Reaching(m.Keys, key, requests));
    if requests != [] {
      var r := requests[0];
      var k := Route(m.Keys, r.endpoint);
      StepValid(m[k], r.event);
      var m' := m[k := Step(m[k], r.event)];
      assert m'.Keys == m.Keys;
      GrantedToBucket(m', r.event.at, requests[1..], endpoints, key, s, t);
      if k == key {
        assert Reaching(m.Keys, key, requests)[1..] == Reaching(m.Keys, key, requests[1..]);
      } else {
        assert Reaching(m.Keys, key, requests) == Reaching(m.Keys, key, requests[1..]);
      }
    }
  }

  /** All endpoints that fall back to one bucket share its limit: together they get no more than one
      bucket grants in any window. */
  lemma SharedBucketBound(
      m: Limits, now: real, requests: seq<Request>, endpoints: set<string>, key: string, s: real, t: real)
    requires key in m && forall e :: e in endpoints ==> e == key || (key == "default" && e !in m)
    requires ValidLimits(m, now) && OrderedRequests(now, requests) && s <= t
    ensures GrantedTo(m, now, requests, endpoints, s, t) as real <= m[key].capacity as real + Gain(t - s, m[key].rate)
  {
    GrantedToBucket(m, now, requests, endpoints, key, s, t);
    WindowBound(m[key], Reaching(m.Keys, key, requests), s, t);
  }

  /** What the endpoints of a bucket get is what the bucket grants, when they make all the requests that reach it. */
  lemma SharedGrants(m: Limits, now: real, requests: seq<Request>, endpoints: set<string>, key: string, s: real, t: real)
    requires key in m && forall e :: e in endpoints ==> e == key || (key == "default" && e !in m)
    requires ValidLimits(m, now) && OrderedRequests(now, requests)
    requires forall r :: r in requests && (r.endpoint == key || (key == "default" && r.endpoint !in m)) ==>
      r.endpoint in endpoints
    ensures Ordered(m[key].last, Addressed(m.Keys, key, requests))
    ensures GrantedTo(m, now, requests, endpoints, s, t) == Granted(m[key], Addressed(m.Keys, key, requests), s, t)
  {
    AddressedReach(m.Keys, key, requests);
    GrantedToBucket(m, now, requests, endpoints, key, s, t);
  }

  /** All buckets after a run of requests. */
  function AfterAll(m: Limits, now: real, requests: seq<Request>): (r: Limits)
    requires ValidLimits(m, now) && OrderedRequests(now, requests)
    ensures r.Keys == m.Keys
    decreases |requests|
  {
    if requests == [] then m
    else
      var r := requests[0];
      var k := Route(m.Keys, r.endpoint);
      StepValid(m[k], r.event);
      AfterAll(m[k := Step(m[k], r.event)], r.event.at, requests[1..])
  }

  /** The requests that concern one bucket: those for an endpoint of that name, and for the default one also those for
      endpoints without a bucket. */
  function Addressed(buckets: set<string>, key: string, requests: seq<Request>): seq<Event> {
    if requests == [] then []
    else
      var e := requests[0].endpoint;
      (if e == key || (key == "default" && e !in buckets) then [requests[0].event] else [])
      + Addressed(buckets, key, requests[1..])
  }

  lemma {:induction false} AddressedReach(buckets: set<string>, key: string, requests: seq<Request>)
    requires key in buckets
    ensures Addressed(buckets, key, requests) == Reaching(buckets, key, requests)
  {
    if requests != [] {
      AddressedReach(buckets, key, requests[1..]);
    }
  }

  /** In every run a bucket goes through exactly the requests that concern it: what the other endpoints ask for
      changes nothing. In particular an endpoint with its own bucket is never charged to the default one. */
  lemma {:induction false} EachBucketAlone(m: Limits, now: real, requests: seq<Request>, key: string)
    requires key in m && ValidLimits(m, now) && OrderedRequests(now, requests)
    ensures Ordered(m[key].last, Addressed(m.Keys, key, requests))
    ensures AfterAll(m, now, requests)[key] == After(m[key], Addressed(m.Keys, key, requests))
    decreases |requests|
  {
    AddressedReach(m.Keys, key, requests);
    ReachingOrdered(m.Keys, key, now, requests);
    OrderedEarlier(now, m[key].last, Addressed(m.Keys, key, requests));
    if requests != [] {
      var r := requests[0];
      var k := Route(m.Keys, r.endpoint);
      StepValid(m[k], r.event);
      var m' := m[k := Step(m[k], r.event)];
      assert m'.Keys == m.Keys;
      EachBucketAlone(m', r.event.at, requests[1..], key);
      var rest := Addressed(m.Keys, key, requests[1..]);
      assert ([r.event] + rest)[1..] == rest && [] + rest == rest;
    }
  }

  /** Requests that all have a bucket of their own leave the default one as it was. */
  lemma OwnBucketsSpareDefault(m: Limits, now: real, requests: seq<Request>)
    requires ValidLimits(m, now) && OrderedRequests(now, requests)
    requires forall r :: r in requests ==> r.endpoint in m && r.endpoint != "default"
    ensures AfterAll(m, now, requests)["default"] == m["default"]
  {
    EachBucketAlone(m, now, requests, "default");
    NoneAddressed(m.Keys, requests);
  }

  lemma {:induction false} NoneAddressed(buckets: set<string>, requests: seq<Request>)
    requires forall r :: r in requests ==> r.endpoint in buckets && r.endpoint != "default"
    ensures Addressed(buckets, "default", requests) == []
  {
    if requests != [] {
      assert requests[0] in requests;
      NoneAddressed(buckets, requests[1..]);
    }
  }

  class ExchangeRateLimiter {
    const limits: map<string, TokenBucket>
    var stats: map<string, nat>

    constructor (limits: map<string, TokenBucket>)
      ensures this.limits == limits && stats == map[]
    {
      this.limits := limits;
      stats := map[];
    }

    ghost predicate Valid()
      reads limits.Values
    {
      && (forall k :: k in limits ==> limits[k].Valid())
      && (forall j, k :: j in limits && k in limits && j != k ==> limits[j] != limits[k])
    }

    /** The request goes to the endpoint's own bucket, else to the default bucket, else nowhere; only that
        bucket changes, and the endpoint is counted when the call returns with its tokens. */
    method Acquire(endpoint: string, n: nat, readings: seq<real>)
      returns (granted: bool, waited: real, ghost passes: nat)
      requires Valid() && |readings| > 0
      requires forall k :: k in limits ==> Clock(limits[k].lastRefill, readings)
      modifies this`stats, limits.Values
      ensures Valid()
      ensures endpoint in limits ==>
        && Acquired(old(limits[endpoint].State()), limits[endpoint].State(), limits[endpoint].Period(), n, readings,
                    granted, waited, passes)
        && forall k :: k in limits && k != endpoint ==> limits[k].State() == old(limits[k].State())
      ensures endpoint !in limits && "default" in limits ==>
        && Acquired(old(limits["default"].State()), limits["default"].State(), limits["default"].Period(), n, readings,
                    granted, waited, passes)
        && forall k :: k in limits && k != "default" ==> limits[k].State() == old(limits[k].State())
      ensures endpoint !in limits && "default" !in limits ==>
        && granted && waited == 0.0 && stats == old(stats)
        && forall k :: k in limits ==> limits[k].State() == old(limits[k].State())
      ensures !granted ==> stats == old(stats)
      ensures granted && (endpoint in limits || "default" in limits) ==>
        && stats.Keys == old(stats).Keys + {endpoint}
        && stats[endpoint] == (if endpoint in old(stats) then old(stats)[endpoint] else 0) + 1
        && forall e :: e in old(stats) && e != endpoint ==> stats[e] == old(stats)[e]
    {
      var key := Route(limits.Keys, endpoint);
      if key !in limits {
        return true, 0.0, 0;
      }
      var bucket := limits[key];
      granted, waited, passes := bucket.Acquire(n, readings);
      if granted {
        stats := Counted(stats, endpoint);
      }
    }
  }

  /** What one acquire does to its bucket: every pass but the last finds too few tokens, the last one decides, and the
      tokens are taken from what the refill at that pass gives. */
  ghost predicate Acquired(b: Bucket, after: Bucket, period: real, n: nat, readings: seq<real>,
      granted: bool, waited: real, passes: nat)
  {
    && ValidBucket(b) && 1 <= passes <= |readings| && (!granted ==> passes == |readings|)
    && (forall i :: 0 <= i < passes - 1 ==> Refill(b, readings[i]).tokens < n as real)
    && (granted <==> Refill(b, readings[passes - 1]).tokens >= n as real)
    && after == Step(b, Attempt(readings[passes - 1], n))
    && after.tokens == Refill(b, readings[passes - 1]).tokens - (if granted then n as real else 0.0)
    && waited == Asked(b, n, period, readings, if granted then passes - 1 else passes)
  }

  function Counted(stats: map<string, nat>, endpoint: string): map<string, nat> {
    stats[endpoint := (if endpoint in stats then stats[endpoint] else 0) + 1]
  }
}
