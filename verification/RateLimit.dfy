/** The per-source token bucket and its waiting loop (backend/app/adapters/ratelimit.py). */
module RateLimit {

  function Min(a: real, b: real): real { if a <= b then a else b }

  /** Capacity in tokens, refill in tokens per second, longest wait in seconds. */
  datatype Limit = Limit(capacity: real, refillRate: real, maxWait: real) {
    predicate Sensible() { capacity >= 0.0 && refillRate >= 0.0 }
  }

  const DEFAULT_LIMIT: Limit := Limit(5.0, 1.0, 30.0)

  // ----- The bucket as a value

  datatype Level = Level(tokens: real, at: real)

  /** What flows into the bucket in a time. */
  function Inflow(l: Limit, elapsed: real): real {
    elapsed * l.refillRate
  }

  lemma InflowAdds(l: Limit, a: real, b: real)
    ensures Inflow(l, a + b) == Inflow(l, a) + Inflow(l, b)
    ensures Inflow(l, 0.0) == 0.0
  {
  }

  lemma InflowGrows(l: Limit, a: real)
    requires l.Sensible() && a >= 0.0
    ensures Inflow(l, a) >= 0.0
  {
  }

  function Refilled(l: Limit, v: Level, now: real): Level {
    Level(Min(l.capacity, v.tokens + Inflow(l, now - v.at)), now)
  }

  /** One call of `consume` at time `now`: whether it was granted, and the level after it. */
  function Consumed(l: Limit, v: Level, now: real): (bool, Level) {
    var r := Refilled(l, v, now);
    if r.tokens >= 1.0 then (true, Level(r.tokens - 1.0, now)) else (false, r)
  }

  predicate InBounds(l: Limit, v: Level) {
    0.0 <= v.tokens <= l.capacity
  }

  /** Calls at the given times, one after the other. */
  function Calls(l: Limit, v: Level, times: seq<real>): seq<bool>
    decreases |times|
  {
    if times == [] then []
    else
      var (granted, v') := Consumed(l, v, times[0]);
      [granted] + Calls(l, v', times[1..])
  }

  predicate Monotone(from: real, times: seq<real>)
    decreases |times|
  {
    times == [] || (from <= times[0] && Monotone(times[0], times[1..]))
  }

  function Granted(calls: seq<bool>): nat {
    if calls == [] then 0 else (if calls[0] then 1 else 0) + Granted(calls[1..])
  }

  /** One call keeps the bucket between empty and full, and takes a token only out of what was there
      and what flowed in. */
  lemma OneCall(l: Limit, v: Level, now: real)
    requires l.Sensible() && InBounds(l, v) && v.at <= now
    ensures InBounds(l, Consumed(l, v, now).1) && Consumed(l, v, now).1.at == now
    ensures Consumed(l, v, now).1.tokens + (if Consumed(l, v, now).0 then 1.0 else 0.0) <= v.tokens + Inflow(l, now - v.at)
  {
    InflowGrows(l, now - v.at);
    hide Inflow;
  }

  /** What one call does: it is refused exactly when the bucket, refilled up to its capacity, holds
      less than one token; a grant takes one token and a refusal none. */
  lemma CallExactly(l: Limit, v: Level, now: real)
    ensures var (granted, after) := Consumed(l, v, now);
            var held := v.tokens + (now - v.at) * l.refillRate;
            && (!granted <==> held < 1.0 || l.capacity < 1.0)
            && after.at == now
            && (held <= l.capacity ==> after.tokens == held - (if granted then 1.0 else 0.0))
            && (held >= l.capacity ==> after.tokens == l.capacity - (if granted then 1.0 else 0.0))
  {
    CallWith(l, v, now, (now - v.at) * l.refillRate);
    hide Consumed;
  }

  lemma CallWith(l: Limit, v: Level, now: real, inflow: real)
    requires inflow == Inflow(l, now - v.at)
    ensures var (granted, after) := Consumed(l, v, now);
            && (!granted <==> v.tokens + inflow < 1.0 || l.capacity < 1.0)
            && after.at == now
            && (v.tokens + inflow <= l.capacity ==> after.tokens == v.tokens + inflow - (if granted then 1.0 else 0.0))
            && (v.tokens + inflow >= l.capacity ==> after.tokens == l.capacity - (if granted then 1.0 else 0.0))
  {
    hide Inflow;
  }

  ghost predicate AllGranted(calls: seq<bool>) {
    forall i :: 0 <= i < |calls| ==> calls[i]
  }

  /** A burst: as many calls as there are tokens are all granted, however close together. */
  lemma {:induction false} BurstIsGranted(l: Limit, v: Level, times: seq<real>)
    requires l.Sensible() && InBounds(l, v) && Monotone(v.at, times) && |times| as real <= v.tokens
    ensures AllGranted(Calls(l, v, times))
    decreases |times|
  {
    if times != [] {
      InflowGrows(l, times[0] - v.at);
      CallWith(l, v, times[0], Inflow(l, times[0] - v.at));
      var v' := FirstCall(l, v, times);
      hide Inflow, Calls, Consumed;
      BurstIsGranted(l, v', times[1..]);
    }
  }

  /** Each call comes at least as long after the one before as one token takes to flow in. */
  predicate Spaced(l: Limit, from: real, times: seq<real>)
    decreases |times|
  {
    times == [] || (1.0 <= Inflow(l, times[0] - from) && Spaced(l, times[0], times[1..]))
  }

  /** Calls paced at the refill rate are never refused. */
  lemma {:induction false} PacedCallsAreGranted(l: Limit, v: Level, times: seq<real>)
    requires l.Sensible() && l.capacity >= 1.0 && InBounds(l, v) && Monotone(v.at, times) && Spaced(l, v.at, times)
    ensures AllGranted(Calls(l, v, times))
    decreases |times|
  {
    if times != [] {
      CallWith(l, v, times[0], Inflow(l, times[0] - v.at));
      var v' := FirstCall(l, v, times);
      hide Inflow, Calls, Consumed;
      PacedCallsAreGranted(l, v', times[1..]);
    }
  }

  /** What is granted is paid for by what was there and what flowed in since. */
  lemma {:induction false} GrantsArePaid(l: Limit, v: Level, times: seq<real>)
    requires l.Sensible() && InBounds(l, v) && Monotone(v.at, times) && times != []
    ensures Granted(Calls(l, v, times)) as real <= v.tokens + Inflow(l, times[|times| - 1] - v.at)
    decreases |times|
  {
    var (granted, v') := Consumed(l, v, times[0]);
    OneCall(l, v, times[0]);
    var rest := Calls(l, v', times[1..]);
    hide Inflow, Consumed, InBounds;
    assert Calls(l, v, times) == [granted] + rest;
    assert ([granted] + rest)[1..] == rest;
    if |times| == 1 {
      assert rest == [];
    } else {
      GrantsArePaid(l, v', times[1..]);
      var last := times[|times| - 1];
      InflowAdds(l, times[0] - v.at, last - times[0]);
      assert last - v.at == (times[0] - v.at) + (last - times[0]);
    }
  }

  /** The rest of a run starts from the bucket its first call leaves. */
  lemma FirstCall(l: Limit, v: Level, times: seq<real>) returns (v': Level)
    requires l.Sensible() && InBounds(l, v) && Monotone(v.at, times) && times != []
    ensures InBounds(l, v') && Monotone(v'.at, times[1..]) && v' == Consumed(l, v, times[0]).1 && v'.at == times[0]
    ensures Calls(l, v, times) == [Consumed(l, v, times[0]).0] + Calls(l, v', times[1..])
  {
    OneCall(l, v, times[0]);
    v' := Consumed(l, v, times[0]).1;
    hide Consumed, InBounds;
  }

  /** From a bucket's first call on, in any run of calls at non-decreasing times, the grants inside
      a window are at most the capacity plus what flows in during the window. */
  lemma {:induction false} WindowBound(l: Limit, v: Level, times: seq<real>, i: nat, j: nat)
    requires l.Sensible() && InBounds(l, v) && Monotone(v.at, times) && i < j <= |times|
    ensures |Calls(l, v, times)| == |times|
    ensures Granted(Calls(l, v, times)[i..j]) as real <= l.capacity + (times[j - 1] - times[i]) * l.refillRate
    decreases |times|
  {
    hide Consumed, Calls, Granted, InBounds, Monotone;
    WindowLength(l, v, times);
    if i > 0 {
      var v' := FirstCall(l, v, times);
      WindowBound(l, v', times[1..], i - 1, j - 1);
      assert Calls(l, v, times)[i..j] == Calls(l, v', times[1..])[i - 1..j - 1];
    } else {
      WindowFromStart(l, v, times, j);
    }
  }

  /** A window that starts at the first call is counted from the refilled bucket. */
  lemma WindowFromStart(l: Limit, v: Level, times: seq<real>, j: nat)
    requires l.Sensible() && InBounds(l, v) && Monotone(v.at, times) && 0 < j <= |times|
    ensures |Calls(l, v, times)| == |times|
    ensures Granted(Calls(l, v, times)[..j]) as real <= l.capacity + Inflow(l, times[j - 1] - times[0])
  {
    var full := Refilled(l, v, times[0]);
    InflowGrows(l, times[0] - v.at);
    CallsFromRefill(l, v, times);
    CallsPrefix(l, full, times, j);
    MonotonePrefix(full.at, times, j);
    hide Inflow, Consumed, Calls, Granted, Monotone;
    GrantsArePaid(l, full, times[..j]);
  }

  lemma {:induction false} WindowLength(l: Limit, v: Level, times: seq<real>)
    ensures |Calls(l, v, times)| == |times|
    decreases |times|
  {
    if times != [] {
      WindowLength(l, Consumed(l, v, times[0]).1, times[1..]);
    }
  }

  lemma CallsFromRefill(l: Limit, v: Level, times: seq<real>)
    requires times != []
    ensures Calls(l, v, times) == Calls(l, Refilled(l, v, times[0]), times)
  {
    var full := Refilled(l, v, times[0]);
    InflowAdds(l, 0.0, 0.0);
    hide Inflow;
    assert Refilled(l, full, times[0]) == full;
  }

  lemma {:induction false} CallsPrefix(l: Limit, v: Level, times: seq<real>, j: nat)
    requires j <= |times|
    ensures |Calls(l, v, times)| == |times| && Calls(l, v, times)[..j] == Calls(l, v, times[..j])
    decreases |times|
  {
    WindowLength(l, v, times);
    if j > 0 {
      CallsPrefix(l, Consumed(l, v, times[0]).1, times[1..], j - 1);
      assert times[..j][1..] == times[1..][..j - 1];
    }
  }

  lemma {:induction false} MonotonePrefix(from: real, times: seq<real>, j: nat)
    requires Monotone(from, times) && j <= |times|
    ensures Monotone(from, times[..j])
    decreases |times|
  {
    if j > 0 {
      MonotonePrefix(times[0], times[1..], j - 1);
      assert times[..j][1..] == times[1..][..j - 1];
    }
  }

  /** The level after the calls. */
  function LevelAfter(l: Limit, v: Level, times: seq<real>): Level
    decreases |times|
  {
    if times == [] then v else LevelAfter(l, Consumed(l, v, times[0]).1, times[1..])
  }

  lemma {:induction false} OneMoreCall(l: Limit, v: Level, times: seq<real>, now: real)
    requires Monotone(v.at, times) && LevelAfter(l, v, times).at <= now
    ensures Calls(l, v, times + [now]) == Calls(l, v, times) + [Consumed(l, LevelAfter(l, v, times), now).0]
    ensures LevelAfter(l, v, times + [now]) == Consumed(l, LevelAfter(l, v, times), now).1
    ensures Monotone(v.at, times + [now])
    decreases |times|
  {
    if times == [] {
      assert [] + [now] == [now];
      assert [now][1..] == [];
    } else {
      assert (times + [now])[1..] == times[1..] + [now];
      OneMoreCall(l, Consumed(l, v, times[0]).1, times[1..], now);
    }
  }

  // ----- The objects

  /** The monotonic clock; `slept` is the total ever asked of `Sleep`. */
  class Clock {
    var now: real
    ghost var slept: real

    constructor (now: real) ensures this.now == now && slept == 0.0 {
      this.now, slept := now, 0.0;
    }

    method Read() returns (t: real)
      modifies this`now
      ensures now >= old(now) && t == now
    {
      var d: real :| d >= 0.0;
      now := now + d;
      t := now;
    }

    /** Sleeps at least `d`. */
    method Sleep(d: real)
      requires d > 0.0
      modifies this
      ensures now >= old(now) + d && slept == old(slept) + d
    {
      var more: real :| more >= 0.0;
      now := now + d + more;
      slept := slept + d;
    }
  }

  class Bucket {
    const limit: Limit
    var tokens: real
    var lastRefill: real

    /** The calls so far, by whichever thread: when, and whether granted. */
    ghost const born: real
    ghost var times: seq<real>
    ghost var grants: seq<bool>

    function Current(): Level reads this { Level(tokens, lastRefill) }

    ghost predicate Sound() reads this { limit.Sensible() && InBounds(limit, Current()) }

    /** The level and the grants are those of the calls, from a full bucket on. */
    ghost predicate Valid() reads this {
      && Sound()
      && Monotone(born, times) && grants == Calls(limit, Level(limit.capacity, born), times)
      && Current() == LevelAfter(limit, Level(limit.capacity, born), times)
    }

    constructor (limit: Limit, now: real)
      requires limit.Sensible()
      ensures this.limit == limit && Valid() && Current() == Level(limit.capacity, now) && times == []
    {
      this.limit := limit;
      tokens, lastRefill := limit.capacity, now;
      born, times, grants := now, [], [];
    }

    /** The limit, on a bucket's own history: among all calls it has ever seen, the grants inside any
        window are at most the capacity plus what flows in during the window. */
    lemma HistoryBound(i: nat, j: nat)
      requires Valid() && i < j <= |times|
      ensures |grants| == |times|
      ensures Granted(grants[i..j]) as real <= limit.capacity + (times[j - 1] - times[i]) * limit.refillRate
    {
      WindowBound(limit, Level(limit.capacity, born), times, i, j);
    }

    method Refill(now: real)
      requires Sound() && lastRefill <= now
      modifies this`tokens, this`lastRefill
      ensures Sound() && Current() == Refilled(limit, old(Current()), now)
    {
      InflowGrows(limit, now - lastRefill);
      tokens := Min(limit.capacity, tokens + Inflow(limit, now - lastRefill));
      lastRefill := now;
    }

    method Consume(now: real) returns (granted: bool)
      requires Valid() && lastRefill <= now
      modifies this
      ensures Valid() && (granted, Current()) == Consumed(limit, old(Current()), now)
      ensures times == old(times) + [now] && grants == old(grants) + [granted]
    {
      hide Calls, LevelAfter, Monotone, Inflow;
      OneMoreCall(limit, Level(limit.capacity, born), times, now);
      Refill(now);
      granted := tokens >= 1.0;
      if granted {
        tokens := tokens - 1.0;
      }
      times, grants := times + [now], grants + [granted];
    }

    /** Other threads use the bucket while nobody holds the lock: any number of calls up to now. */
    method OthersConsume(now: real)
      requires Valid() && lastRefill <= now
      modifies this
      ensures Valid() && lastRefill <= now && old(times) <= times && old(grants) <= grants
    {
      hide Calls, LevelAfter, Monotone, Consumed;
      var n: int := *;
      for k := 0 to if n > 0 then n else 0
        invariant Valid() && lastRefill <= now && old(times) <= times && old(grants) <= grants
      {
        var t: real := *;
        t := if t < lastRefill then lastRefill else if t > now then now else t;
        ConsumedAt(limit, Current(), t);
        var granted := Consume(t);
      }
    }
  }

  lemma ConsumedAt(l: Limit, v: Level, now: real)
    ensures Consumed(l, v, now).1.at == now
  {
  }

  function Pow2(n: nat): nat { if n == 0 then 1 else 2 * Pow2(n - 1) }

  /** How many more rounds a waiting caller can make: each sleeps 0.05 s or up to the deadline. */
  function Rounds(left: real): nat {
    if left <= 0.0 then 0 else (left / 0.05).Floor + 1
  }

  lemma FewerRounds(left: real, left': real)
    requires left > 0.0 && (left' <= left - 0.05 || left' <= 0.0)
    ensures Rounds(left') < Rounds(left)
  {
    if left' > 0.0 {
      assert left' / 0.05 <= left / 0.05 - 1.0;
    }
  }

  class RateLimiter {
    const limits: map<string, Limit>
    var buckets: map<string, Bucket>

    constructor (limits: map<string, Limit>)
      ensures this.limits == limits && buckets == map[]
    {
      this.limits := limits;
      buckets := map[];
    }

    function LimitOf(source: string): Limit {
      if source in limits then limits[source] else DEFAULT_LIMIT
    }

    ghost predicate Valid(now: real)
      reads this, buckets.Values
    {
      && (forall s :: s in limits ==> limits[s].Sensible())
      && (forall s :: s in buckets ==> buckets[s].Valid() && buckets[s].limit == LimitOf(s) && buckets[s].lastRefill <= now)
      && (forall s, s' :: s in buckets && s' in buckets && s != s' ==> buckets[s] != buckets[s'])
    }

    /** `_get_bucket`: the source's bucket, created full on first use. */
    method GetBucket(source: string, now: real) returns (b: Bucket)
      requires Valid(now)
      modifies this
      ensures Valid(now) && source in buckets && b == buckets[source]
      ensures buckets.Keys == old(buckets).Keys + {source}
      ensures forall s :: s in old(buckets) ==> buckets[s] == old(buckets)[s]
      ensures source !in old(buckets) ==> fresh(b)
    {
      if source !in buckets {
        var made := new Bucket(LimitOf(source), now);
        buckets := buckets[source := made];
      }
      b := buckets[source];
    }

    /** One attempt under the lock; since the last one, other threads may have taken tokens. */
    method TryOnce(source: string, clock: Clock) returns (granted: bool, ghost found: Level)
      requires Valid(clock.now)
      modifies this, clock`now, buckets.Values
      ensures Valid(clock.now) && clock.now >= old(clock.now)
      ensures source in buckets && InBounds(LimitOf(source), found)
      ensures (granted, buckets[source].Current()) == Consumed(LimitOf(source), found, clock.now)
      ensures forall s :: s in buckets ==> (s in old(buckets) && buckets[s] == old(buckets)[s]) || fresh(buckets[s])
    {
      var now := clock.Read();
      var bucket := GetBucket(source, now);
      bucket.OthersConsume(now);
      found := bucket.Current();
      granted := bucket.Consume(now);
    }

    /** `acquire`: terminates, having slept at most the source's longest wait in total.  The answer
        is that of the last attempt: true exactly when that attempt took a token it found. */
    method Acquire(source: string, clock: Clock) returns (ok: bool, ghost found: Level, ghost at: real)
      requires Valid(clock.now)
      modifies this, clock, buckets.Values
      ensures Valid(clock.now) && clock.now >= old(clock.now)
      ensures clock.slept - old(clock.slept) <= (if LimitOf(source).maxWait >= 0.0 then LimitOf(source).maxWait else 0.0)
      ensures !ok ==> clock.now >= old(clock.now) + LimitOf(source).maxWait
      ensures source in buckets && InBounds(LimitOf(source), found) && old(clock.now) <= at <= clock.now
      ensures (ok, buckets[source].Current()) == Consumed(LimitOf(source), found, at)
    {
      hide Consumed, InBounds;
      ghost var slept0 := clock.slept;
      var start := clock.Read();
      var deadline := start + LimitOf(source).maxWait;
      var attempt := 0;
      while true
        invariant Valid(clock.now)
        invariant forall s :: s in buckets ==> (s in old(buckets) && buckets[s] == old(buckets)[s]) || fresh(buckets[s])
        invariant old(clock.now) <= start <= clock.now
        invariant clock.slept - slept0 <= clock.now - start
        invariant clock.slept == slept0 || clock.slept - slept0 <= LimitOf(source).maxWait
        decreases Rounds(deadline - clock.now)
      {
        ghost var top := clock.now;
        ok, found := TryOnce(source, clock);
        at := clock.now;
        if ok {
          return;
        }
        var late := BackOff(clock, deadline, attempt);
        if late {
          return;
        }
        FewerRounds(deadline - top, deadline - clock.now);
        attempt := attempt + 1;
      }
    }

    /** One wait: jittered exponential backoff, never past the deadline. */
    method BackOff(clock: Clock, deadline: real, attempt: nat) returns (late: bool)
      modifies clock
      ensures clock.now >= old(clock.now)
      ensures late ==> clock.slept == old(clock.slept) && clock.now >= deadline
      ensures !late ==> (
        && old(clock.now) < deadline
        && (clock.now >= deadline || clock.now >= old(clock.now) + 0.05)
        && 0.0 <= clock.slept - old(clock.slept) <= clock.now - old(clock.now)
        && (clock.slept == old(clock.slept) || clock.slept - old(clock.slept) <= deadline - old(clock.now)))
    {
      var t := clock.Read();
      if t >= deadline {
        return true;
      }
      var base := Min(0.1 * Pow2(attempt) as real, 2.0);
      BaseIsPositive(attempt);
      var jitter: real :| 0.0 <= jitter < 1.0;
      var sleepFor := base * (0.5 + jitter * 0.5);
      LongEnough(base, jitter);
      t := clock.Read();
      sleepFor := Min(sleepFor, deadline - t);
      if sleepFor > 0.0 {
        clock.Sleep(sleepFor);
      }
      return false;
    }
  }

  lemma {:induction false} BaseIsPositive(attempt: nat)
    ensures Min(0.1 * Pow2(attempt) as real, 2.0) >= 0.1
  {
    PowersAreBig(attempt);
  }

  lemma {:induction false} PowersAreBig(n: nat)
    ensures Pow2(n) >= 1
  {
    if n > 0 {
      PowersAreBig(n - 1);
    }
  }

  lemma LongEnough(base: real, jitter: real)
    requires base >= 0.1 && 0.0 <= jitter < 1.0
    ensures base * (0.5 + jitter * 0.5) >= 0.05
  {
    assert base * (0.5 + jitter * 0.5) >= 0.1 * (0.5 + jitter * 0.5);
  }
}
