/**
 The gateway's rate limiter (`services/gateway-service/app/rate_limit.py`). Levels and clock readings
 are real numbers. The clock is read before the lock is taken, so the readings of successive calls may
 go backwards; nothing here supposes otherwise.
 */
module TokenBucket {
  import opened Common

  datatype RawPolicy = BucketPolicy(capacity: real, refillPerSecond: real)

  type Policy = p: RawPolicy | p.capacity > 0.0 && p.refillPerSecond > 0.0 witness BucketPolicy(1.0, 1.0)

  datatype BucketState = BucketState(tokens: real, updatedAt: real)

  datatype Decision = Allowed | Denied(retryAfterSeconds: int)

  datatype CallError = CostNotPositive | UnknownBucket | EmptyKey

  datatype Call = Call(bucket: string, key: string, cost: real, now: real)

  type Policies = map<string, Policy>
  type States = map<(string, string), BucketState>

  const LONGEST_RETRY := 3600

  function MinReal(a: real, b: real): real {
    if a <= b then a else b
  }

  function Positive(x: real): real {
    if x > 0.0 then x else 0.0
  }

  function Ceil(x: real): int {
    -((-x).Floor)
  }

  /** `default_bucket_policies`. */
  function DefaultBucketPolicies(): Policies {
    map["auth-bootstrap" := BucketPolicy(3.0, 1.0 / 60.0),
        "auth-login" := BucketPolicy(5.0, 1.0 / 30.0),
        "endpoint-enrollment" := BucketPolicy(10.0, 1.0 / 30.0),
        "admin-read" := BucketPolicy(120.0, 2.0),
        "admin-write" := BucketPolicy(30.0, 0.5),
        "public-read" := BucketPolicy(120.0, 2.0)]
  }

  // ---------------------------------------------------------------- one bucket

  /** What the bucket gains in `d` seconds. */
  function Gain(p: Policy, d: real): real {
    d * p.refillPerSecond
  }

  /** The level a call at `now` finds; a bucket seen for the first time is full. */
  function Level(p: Policy, s: Option<BucketState>, now: real): real {
    if s.None? then p.capacity
    else MinReal(p.capacity, s.value.tokens + Gain(p, Positive(now - s.value.updatedAt)))
  }

  function RetryAfter(p: Policy, level: real, cost: real): int {
    Max(1, Min(LONGEST_RETRY, Ceil((cost - level) / p.refillPerSecond)))
  }

  function Answer(p: Policy, s: Option<BucketState>, cost: real, now: real): Decision {
    if Level(p, s, now) >= cost then Allowed else Denied(RetryAfter(p, Level(p, s, now), cost))
  }

  function After(p: Policy, s: Option<BucketState>, cost: real, now: real): BucketState {
    var level := Level(p, s, now);
    BucketState(if level >= cost then level - cost else level, now)
  }

  predicate InRange(p: Policy, s: BucketState) {
    0.0 <= s.tokens <= p.capacity
  }

  lemma GainMonotone(p: Policy, x: real, y: real)
    ensures x <= y ==> Gain(p, x) <= Gain(p, y)
    ensures x < y ==> Gain(p, x) < Gain(p, y)
    ensures 0.0 <= x ==> 0.0 <= Gain(p, x)
  {
  }

  lemma GainSplits(p: Policy, x: real, y: real)
    ensures Gain(p, x + y) == Gain(p, x) + Gain(p, y)
  {
  }

  // ---------------------------------------------------------------- the limiter

  function Find(states: States, k: (string, string)): Option<BucketState> {
    if k in states then Some(states[k]) else None
  }

  function Check(policies: Policies, c: Call): Option<CallError> {
    if c.cost <= 0.0 then Some(CostNotPositive)
    else if c.bucket !in policies then Some(UnknownBucket)
    else if c.key == "" then Some(EmptyKey)
    else None
  }

  /** The answer to one call, and the states it leaves. */
  function Consumed(policies: Policies, states: States, c: Call): (Result<Decision, CallError>, States) {
    match Check(policies, c)
    case Some(e) => (Err(e), states)
    case None =>
      var p, s := policies[c.bucket], Find(states, (c.bucket, c.key));
      (Ok(Answer(p, s, c.cost, c.now)), states[(c.bucket, c.key) := After(p, s, c.cost, c.now)])
  }

  class TokenBucketLimiter {
    const policies: Policies
    var states: States

    constructor (policies: Policies)
      ensures this.policies == policies && states == map[]
    {
      this.policies, states := policies, map[];
    }

    method Consume(bucket: string, key: string, cost: real, now: real) returns (r: Result<Decision, CallError>)
      modifies this
      ensures (r, states) == Consumed(policies, old(states), Call(bucket, key, cost, now))
    {
      if cost <= 0.0 {
        return Err(CostNotPositive);
      }
      if bucket !in policies {
        return Err(UnknownBucket);
      }
      if key == "" {
        return Err(EmptyKey);
      }
      var policy: Policy, stateKey := policies[bucket], (bucket, key);
      var tokens;
      if stateKey !in states {
        tokens := policy.capacity;
      } else {
        var elapsed := if now - states[stateKey].updatedAt > 0.0 then now - states[stateKey].updatedAt else 0.0;
        tokens := MinReal(policy.capacity, states[stateKey].tokens + elapsed * policy.refillPerSecond);
      }
      if tokens >= cost {
        states := states[stateKey := BucketState(tokens - cost, now)];
        return Ok(Allowed);
      }
      states := states[stateKey := BucketState(tokens, now)];
      var deficit := cost - tokens;
      return Ok(Denied(Max(1, Min(LONGEST_RETRY, Ceil(deficit / policy.refillPerSecond)))));
    }
  }

  // ---------------------------------------------------------------- runs

  predicate InRangeAt(policies: Policies, states: States, k: (string, string)) {
    k in states ==> k.0 in policies && InRange(policies[k.0], states[k])
  }

  ghost predicate Healthy(policies: Policies, states: States) {
    forall k {:trigger InRangeAt(policies, states, k)} :: InRangeAt(policies, states, k)
  }

  function Run(policies: Policies, states: States, calls: seq<Call>): States
    decreases |calls|
  {
    if calls == [] then states else Run(policies, Consumed(policies, states, calls[0]).1, calls[1..])
  }

  lemma NextInRange(policies: Policies, states: States, c: Call, k: (string, string))
    requires InRangeAt(policies, states, k)
    ensures InRangeAt(policies, Consumed(policies, states, c).1, k)
  {
  }

  lemma CallKeepsHealthy(policies: Policies, states: States, c: Call)
    requires Healthy(policies, states)
    ensures Healthy(policies, Consumed(policies, states, c).1)
  {
    var after := Consumed(policies, states, c).1;
    forall k ensures InRangeAt(policies, after, k) {
      assert InRangeAt(policies, states, k);
      NextInRange(policies, states, c, k);
    }
  }

  /** From an empty limiter every level always lies between zero and its bucket's capacity. */
  lemma {:induction false} RunKeepsHealthy(policies: Policies, states: States, calls: seq<Call>)
    requires Healthy(policies, states)
    ensures Healthy(policies, Run(policies, states, calls))
    decreases |calls|
  {
    if calls != [] {
      CallKeepsHealthy(policies, states, calls[0]);
      RunKeepsHealthy(policies, Consumed(policies, states, calls[0]).1, calls[1..]);
    }
  }

  // ---------------------------------------------------------------- the window bound

  predicate Hits(policies: Policies, c: Call, k: (string, string)) {
    (c.bucket, c.key) == k && Check(policies, c).None?
  }

  function Taken(policies: Policies, states: States, c: Call): real {
    if Consumed(policies, states, c).0 == Ok(Allowed) then c.cost else 0.0
  }

  /** The cost of the calls for `k` that are allowed in this run. */
  function Granted(policies: Policies, states: States, calls: seq<Call>, k: (string, string)): real
    decreases |calls|
  {
    if calls == [] then 0.0
    else
      (if Hits(policies, calls[0], k) then Taken(policies, states, calls[0]) else 0.0)
      + Granted(policies, Consumed(policies, states, calls[0]).1, calls[1..], k)
  }

  /** The clock readings of the calls that reach the bucket. */
  function KeyReadings(policies: Policies, calls: seq<Call>, k: (string, string)): seq<real>
    decreases |calls|
  {
    if calls == [] then []
    else if Hits(policies, calls[0], k) then
      [calls[0].now] + KeyReadings(policies, calls[1..], k)
    else KeyReadings(policies, calls[1..], k)
  }

  function Readings(calls: seq<Call>): seq<real> {
    seq(|calls|, i requires 0 <= i < |calls| => calls[i].now)
  }

  /** How far the readings move forward in all, starting from `t`; steps back count for nothing. */
  function ForwardFrom(t: real, readings: seq<real>): (d: real)
    ensures d >= 0.0
    decreases |readings|
  {
    if readings == [] then 0.0 else Positive(readings[0] - t) + ForwardFrom(readings[0], readings[1..])
  }

  function Forward(readings: seq<real>): (d: real)
    ensures d >= 0.0
  {
    if readings == [] then 0.0 else ForwardFrom(readings[0], readings[1..])
  }

  /** What a call takes and what it leaves add up to the level it finds. */
  lemma TakenAndLeft(policies: Policies, states: States, c: Call, k: (string, string))
    requires Hits(policies, c, k)
    ensures var after := Consumed(policies, states, c).1;
            k in after && after[k].updatedAt == c.now
            && Taken(policies, states, c) + after[k].tokens == Level(policies[k.0], Find(states, k), c.now)
  {
  }

  lemma LevelAtMost(p: Policy, s: Option<BucketState>, now: real)
    ensures Level(p, s, now) <= p.capacity
    ensures s.Some? ==> Level(p, s, now) <= s.value.tokens + Gain(p, Positive(now - s.value.updatedAt))
  {
  }

  lemma GrantedStep(policies: Policies, states: States, calls: seq<Call>, k: (string, string))
    requires calls != []
    ensures var c, next, rest := calls[0], Consumed(policies, states, calls[0]).1, calls[1..];
            if Hits(policies, c, k) then
              && Granted(policies, states, calls, k) == Taken(policies, states, c) + Granted(policies, next, rest, k)
              && KeyReadings(policies, calls, k) == [c.now] + KeyReadings(policies, rest, k)
            else
              && Granted(policies, states, calls, k) == Granted(policies, next, rest, k)
              && KeyReadings(policies, calls, k) == KeyReadings(policies, rest, k)
              && Find(next, k) == Find(states, k)
  {
  }

  lemma ForwardStep(t: real, u: real, readings: seq<real>)
    ensures ForwardFrom(t, [u] + readings) == Positive(u - t) + ForwardFrom(u, readings)
  {
  }

  /** What a known bucket can grant: its level and what the forward movement adds. */
  lemma {:induction false} GrantedFromKnown(policies: Policies, states: States, calls: seq<Call>, k: (string, string))
    requires k in states && k.0 in policies && InRange(policies[k.0], states[k])
    ensures Granted(policies, states, calls, k)
         <= states[k].tokens + Gain(policies[k.0], ForwardFrom(states[k].updatedAt, KeyReadings(policies, calls, k)))
    decreases |calls|
  {
    var p: Policy, s := policies[k.0], states[k];
    if calls == [] {
      GainMonotone(p, 0.0, 0.0);
    } else {
      var c, next, rest := calls[0], Consumed(policies, states, calls[0]).1, calls[1..];
      GrantedStep(policies, states, calls, k);
      NextInRange(policies, states, c, k);
      GrantedFromKnown(policies, next, rest, k);
      if Hits(policies, c, k) {
        TakenAndLeft(policies, states, c, k);
        LevelAtMost(p, Some(s), c.now);
        ForwardStep(s.updatedAt, c.now, KeyReadings(policies, rest, k));
        GainSplits(p, Positive(c.now - s.updatedAt), ForwardFrom(c.now, KeyReadings(policies, rest, k)));
      }
    }
  }

  /** In any window the bucket grants at most a full bucket and what the forward movement adds. */
  lemma {:induction false} KeyWindowBound(policies: Policies, states: States, calls: seq<Call>, k: (string, string))
    requires k.0 in policies && InRangeAt(policies, states, k)
    ensures Granted(policies, states, calls, k)
         <= policies[k.0].capacity + Gain(policies[k.0], Forward(KeyReadings(policies, calls, k)))
    decreases |calls|
  {
    var p: Policy := policies[k.0];
    if calls == [] {
      GainMonotone(p, 0.0, 0.0);
    } else {
      var c, next, rest := calls[0], Consumed(policies, states, calls[0]).1, calls[1..];
      GrantedStep(policies, states, calls, k);
      NextInRange(policies, states, c, k);
      if Hits(policies, c, k) {
        TakenAndLeft(policies, states, c, k);
        LevelAtMost(p, Find(states, k), c.now);
        GrantedFromKnown(policies, next, rest, k);
        assert ([c.now] + KeyReadings(policies, rest, k))[1..] == KeyReadings(policies, rest, k);
      } else {
        KeyWindowBound(policies, next, rest, k);
      }
    }
  }

  lemma {:induction false} DetourIsLonger(t: real, u: real, readings: seq<real>)
    ensures ForwardFrom(t, readings) <= Positive(u - t) + ForwardFrom(u, readings)
  {
  }

  lemma {:induction false} FewerReadingsFrom(policies: Policies, calls: seq<Call>, k: (string, string), t: real)
    ensures ForwardFrom(t, KeyReadings(policies, calls, k)) <= ForwardFrom(t, Readings(calls))
    decreases |calls|
  {
    if calls != [] {
      var u, rest := calls[0].now, calls[1..];
      assert Readings(calls)[1..] == Readings(rest);
      FewerReadingsFrom(policies, rest, k, u);
      if Hits(policies, calls[0], k) {
        assert KeyReadings(policies, calls, k)[1..] == KeyReadings(policies, rest, k);
      } else {
        DetourIsLonger(t, u, KeyReadings(policies, rest, k));
      }
    }
  }

  /** The readings of one key move forward no further than all readings do. */
  lemma {:induction false} FewerReadings(policies: Policies, calls: seq<Call>, k: (string, string))
    ensures Forward(KeyReadings(policies, calls, k)) <= Forward(Readings(calls))
    decreases |calls|
  {
    if calls != [] {
      var u, rest := calls[0].now, calls[1..];
      assert Readings(calls)[1..] == Readings(rest);
      if Hits(policies, calls[0], k) {
        assert KeyReadings(policies, calls, k)[1..] == KeyReadings(policies, rest, k);
        FewerReadingsFrom(policies, rest, k, u);
      } else {
        FewerReadings(policies, rest, k);
        if rest != [] {
          assert ForwardFrom(u, Readings(rest))
              == Positive(Readings(rest)[0] - u) + ForwardFrom(Readings(rest)[0], Readings(rest)[1..]);
        }
      }
    }
  }

  /** Readings that never step back move forward by the time between the first and the last. */
  lemma {:induction false} ForwardOfSteadyClock(readings: seq<real>)
    requires readings != [] && forall i, j :: 0 <= i < j < |readings| ==> readings[i] <= readings[j]
    ensures Forward(readings) == readings[|readings| - 1] - readings[0]
    decreases |readings|
  {
    if |readings| > 1 {
      var rest := readings[1..];
      assert forall i :: 0 <= i < |rest| ==> rest[i] == readings[i + 1];
      ForwardOfSteadyClock(rest);
      assert ForwardFrom(readings[0], rest) == Positive(rest[0] - readings[0]) + ForwardFrom(rest[0], rest[1..]);
    }
  }

  /**
   For every bucket and key, from any state a run can reach, whatever other calls are mixed in: the
   cost granted in a window is at most the capacity plus the refill over the forward clock movement.
   */
  lemma WindowBound(policies: Policies, before: seq<Call>, window: seq<Call>, k: (string, string))
    requires k.0 in policies
    ensures Granted(policies, Run(policies, map[], before), window, k)
         <= policies[k.0].capacity + Gain(policies[k.0], Forward(Readings(window)))
  {
    RunKeepsHealthy(policies, map[], before);
    assert InRangeAt(policies, Run(policies, map[], before), k);
    KeyWindowBound(policies, Run(policies, map[], before), window, k);
    FewerReadings(policies, window, k);
    GainMonotone(policies[k.0], Forward(KeyReadings(policies, window, k)), Forward(Readings(window)));
  }

  // ---------------------------------------------------------------- exactly what is granted

  /** What was granted to `k` from call `j` on, in a run from an empty limiter. */
  function GrantedSince(policies: Policies, before: seq<Call>, j: nat, k: (string, string)): real
    requires j <= |before|
  {
    Granted(policies, Run(policies, map[], before[..j]), before[j..], k)
  }

  /** What a window from call `j` to a reading of `now` may grant at most. */
  function WindowLimit(policies: Policies, before: seq<Call>, j: nat, k: (string, string), now: real): real
    requires j <= |before| && k.0 in policies
  {
    policies[k.0].capacity + Gain(policies[k.0], Forward(KeyReadings(policies, before[j..], k) + [now]))
  }

  predicate WindowAllows(policies: Policies, before: seq<Call>, j: nat, c: Call)
    requires j <= |before| && c.bucket in policies
  {
    var k := (c.bucket, c.key);
    GrantedSince(policies, before, j, k) + c.cost <= WindowLimit(policies, before, j, k, c.now)
  }

  lemma {:induction false} OneMoreCall(policies: Policies, states: States, calls: seq<Call>, c: Call,
                                       k: (string, string))
    ensures Run(policies, states, calls + [c]) == Consumed(policies, Run(policies, states, calls), c).1
    ensures Granted(policies, states, calls + [c], k)
         == Granted(policies, states, calls, k)
            + if Hits(policies, c, k) then Taken(policies, Run(policies, states, calls), c) else 0.0
    ensures KeyReadings(policies, calls + [c], k)
         == KeyReadings(policies, calls, k) + if Hits(policies, c, k) then [c.now] else []
    decreases |calls|
  {
    if calls == [] {
      assert [] + [c] == [c] && [c][1..] == [];
      GrantedStep(policies, states, [c], k);
    } else {
      assert (calls + [c])[1..] == calls[1..] + [c];
      OneMoreCall(policies, Consumed(policies, states, calls[0]).1, calls[1..], c, k);
    }
  }

  lemma {:induction false} OneMoreReading(t: real, readings: seq<real>, u: real, v: real)
    ensures ForwardFrom(t, readings + [u, v]) == ForwardFrom(t, readings + [u]) + Positive(v - u)
    decreases |readings|
  {
    if readings == [] {
      assert [] + [u, v] == [u, v] && [u, v][1..] == [v] && [v][1..] == [] && [] + [u] == [u] && [u][1..] == [];
      assert ForwardFrom(t, [u, v]) == Positive(u - t) + ForwardFrom(u, [v]);
      assert ForwardFrom(u, [v]) == Positive(v - u) + ForwardFrom(v, []);
    } else {
      assert (readings + [u, v])[1..] == readings[1..] + [u, v] && (readings + [u])[1..] == readings[1..] + [u];
      OneMoreReading(readings[0], readings[1..], u, v);
    }
  }

  lemma ForwardGrows(readings: seq<real>, u: real, v: real)
    ensures Forward(readings + [u] + [v]) == Forward(readings + [u]) + Positive(v - u)
    ensures Forward([u]) == 0.0
  {
    assert readings + [u] + [v] == readings + [u, v];
    assert [u][1..] == [];
    if readings == [] {
      assert [u, v][1..] == [v] && [v][1..] == [];
      assert ForwardFrom(u, [v]) == Positive(v - u) + ForwardFrom(v, []);
    } else {
      assert (readings + [u, v])[1..] == readings[1..] + [u, v] && (readings + [u])[1..] == readings[1..] + [u];
      OneMoreReading(readings[0], readings[1..], u, v);
    }
  }

  /** Some window is exhausted by exactly the level a call finds. */
  lemma {:induction false} LevelIsWhatAWindowLeaves(policies: Policies, before: seq<Call>, k: (string, string),
                                                    now: real) returns (j: nat)
    requires k.0 in policies
    ensures j <= |before|
    ensures Level(policies[k.0], Find(Run(policies, map[], before), k), now)
         == WindowLimit(policies, before, j, k, now) - GrantedSince(policies, before, j, k)
    decreases |before|
  {
    var p: Policy := policies[k.0];
    j := |before|;
    assert before[j..] == [] && before[..j] == before && [] + [now] == [now];
    ForwardGrows([], now, now);
    if before != [] {
      var earlier, last := before[..|before| - 1], before[|before| - 1];
      var states := Run(policies, map[], earlier);
      assert before == earlier + [last];
      OneMoreCall(policies, map[], earlier, last, k);
      if !Hits(policies, last, k) {
        j := LevelIsWhatAWindowLeaves(policies, earlier, k, now);
        WindowGrows(policies, before, j, k, now);
      } else if Level(p, Find(Run(policies, map[], before), k), now) < p.capacity {
        j := LevelIsWhatAWindowLeaves(policies, earlier, k, last.now);
        WindowGrows(policies, before, j, k, now);
        TakenAndLeft(policies, states, last, k);
      }
    }
  }

  /** What the last call adds to a window that starts before it. */
  lemma WindowGrows(policies: Policies, before: seq<Call>, j: nat, k: (string, string), now: real)
    requires k.0 in policies && before != [] && j < |before|
    ensures var earlier, last := before[..|before| - 1], before[|before| - 1];
            var hit := Hits(policies, last, k);
            && GrantedSince(policies, before, j, k)
               == GrantedSince(policies, earlier, j, k)
                  + (if hit then Taken(policies, Run(policies, map[], earlier), last) else 0.0)
            && WindowLimit(policies, before, j, k, now)
               == if hit then WindowLimit(policies, earlier, j, k, last.now)
                              + Gain(policies[k.0], Positive(now - last.now))
                  else WindowLimit(policies, earlier, j, k, now)
  {
    var earlier, last := before[..|before| - 1], before[|before| - 1];
    assert before[..j] == earlier[..j] && before[j..] == earlier[j..] + [last];
    var start := Run(policies, map[], earlier[..j]);
    OneMoreCall(policies, start, earlier[j..], last, k);
    RunSplits(policies, map[], earlier, j);
    if Hits(policies, last, k) {
      var readings := KeyReadings(policies, earlier[j..], k);
      ForwardGrows(readings, last.now, now);
      GainSplits(policies[k.0], Forward(readings + [last.now]), Positive(now - last.now));
    } else {
      assert KeyReadings(policies, earlier[j..], k) + [] == KeyReadings(policies, earlier[j..], k);
    }
  }

  lemma {:induction false} RunSplits(policies: Policies, states: States, calls: seq<Call>, j: nat)
    requires j <= |calls|
    ensures Run(policies, states, calls) == Run(policies, Run(policies, states, calls[..j]), calls[j..])
    decreases j
  {
    if j == 0 {
      assert calls[..0] == [] && calls[0..] == calls;
    } else {
      assert calls[..j][1..] == calls[1..][..j - 1] && calls[1..][j - 1..] == calls[j..];
      RunSplits(policies, Consumed(policies, states, calls[0]).1, calls[1..], j - 1);
    }
  }

  /**
   A call is refused exactly for a cost that is not positive, an unknown bucket or an empty key; it leaves no
   trace.
   */
  lemma RefusedExactlyWhen(policies: Policies, states: States, c: Call)
    ensures var (r, after) := Consumed(policies, states, c);
            && (r.Ok? <==> c.cost > 0.0 && c.bucket in policies && c.key != "")
            && (r.Err? ==> after == states)
            && (r == Err(CostNotPositive) <==> c.cost <= 0.0)
            && (r == Err(EmptyKey) <==> c.cost > 0.0 && c.bucket in policies && c.key == "")
  {
  }

  /**
   After any run a call is allowed exactly when no window that ends with it would be granted more than a
   full bucket and the refill over the window. So the first call for a key is allowed when its cost fits the
   capacity, and a call is denied only if allowing it would break the bound on some window.
   */
  lemma AllowedExactlyWhen(policies: Policies, before: seq<Call>, c: Call)
    requires Check(policies, c).None?
    ensures Consumed(policies, Run(policies, map[], before), c).0 == Ok(Allowed)
       <==> forall j {:trigger WindowAllows(policies, before, j, c)} :: 0 <= j <= |before| ==>
              WindowAllows(policies, before, j, c)
  {
    var k, states := (c.bucket, c.key), Run(policies, map[], before);
    var tight := LevelIsWhatAWindowLeaves(policies, before, k, c.now);
    if Consumed(policies, states, c).0 == Ok(Allowed) {
      forall j | 0 <= j <= |before| ensures WindowAllows(policies, before, j, c) {
        var start := Run(policies, map[], before[..j]);
        RunKeepsHealthy(policies, map[], before[..j]);
        assert InRangeAt(policies, start, k);
        RunSplits(policies, map[], before, j);
        OneMoreCall(policies, start, before[j..], c, k);
        KeyWindowBound(policies, start, before[j..] + [c], k);
      }
    } else {
      assert !WindowAllows(policies, before, tight, c);
    }
  }

  // ---------------------------------------------------------------- the retry-after answer

  lemma CeilBounds(x: real)
    ensures x <= Ceil(x) as real < x + 1.0
  {
  }

  lemma WaitFills(p: Policy, deficit: real)
    requires deficit > 0.0
    ensures Gain(p, deficit / p.refillPerSecond) == deficit && deficit / p.refillPerSecond > 0.0
  {
  }

  /** The lower clamp never changes the answer. */
  lemma LowerClampIsIdle(p: Policy, level: real, cost: real)
    requires level < cost
    ensures RetryAfter(p, level, cost) == Min(LONGEST_RETRY, Ceil((cost - level) / p.refillPerSecond))
  {
  }

  /** Further calls on the bucket, all of them denied. */
  predicate AllDenied(p: Policy, s: BucketState, calls: seq<Call>)
    decreases |calls|
  {
    calls == []
    || (Level(p, Some(s), calls[0].now) < calls[0].cost
        && AllDenied(p, BucketState(Level(p, Some(s), calls[0].now), calls[0].now), calls[1..]))
  }

  function AfterAll(p: Policy, s: BucketState, calls: seq<Call>): BucketState
    decreases |calls|
  {
    if calls == [] then s else AfterAll(p, After(p, Some(s), calls[0].cost, calls[0].now), calls[1..])
  }

  /** The level a call at `t` finds after `calls`. */
  function LevelLater(p: Policy, s: BucketState, calls: seq<Call>, t: real): real {
    Level(p, Some(AfterAll(p, s, calls)), t)
  }

  /** One denied call leaves its level; the rest go on from there. */
  lemma DeniedStep(p: Policy, s: BucketState, calls: seq<Call>, t: real)
    requires calls != [] && AllDenied(p, s, calls)
    ensures var next := BucketState(Level(p, Some(s), calls[0].now), calls[0].now);
            AllDenied(p, next, calls[1..]) && LevelLater(p, s, calls, t) == LevelLater(p, next, calls[1..], t)
  {
  }

  lemma LevelAtLeast(p: Policy, s: BucketState, t: real)
    ensures Level(p, Some(s), t) >= MinReal(p.capacity, s.tokens)
    ensures Level(p, Some(s), t) >= MinReal(p.capacity, s.tokens + Gain(p, t - s.updatedAt))
  {
    GainMonotone(p, t - s.updatedAt, Positive(t - s.updatedAt));
    GainMonotone(p, 0.0, Positive(t - s.updatedAt));
  }

  /** A full bucket that sees only denied calls stays full, whichever way the clock goes. */
  lemma {:induction false} FullStaysFull(p: Policy, s: BucketState, calls: seq<Call>, t: real)
    requires s.tokens == p.capacity && AllDenied(p, s, calls)
    ensures LevelLater(p, s, calls, t) == p.capacity
    decreases |calls|
  {
    if calls == [] {
      LevelAtLeast(p, s, t);
      LevelAtMost(p, Some(s), t);
    } else {
      DeniedStep(p, s, calls, t);
      LevelAtLeast(p, s, calls[0].now);
      LevelAtMost(p, Some(s), calls[0].now);
      FullStaysFull(p, BucketState(Level(p, Some(s), calls[0].now), calls[0].now), calls[1..], t);
    }
  }

  /** Denied calls take nothing: the level a later call finds is at least what the net time adds. */
  lemma {:induction false} DeniedCallsAreHarmless(p: Policy, s: BucketState, calls: seq<Call>, t: real)
    requires AllDenied(p, s, calls)
    ensures LevelLater(p, s, calls, t) >= MinReal(p.capacity, s.tokens + Gain(p, t - s.updatedAt))
    decreases |calls|
  {
    if calls == [] {
      LevelAtLeast(p, s, t);
    } else {
      var u := calls[0].now;
      var level := Level(p, Some(s), u);
      DeniedStep(p, s, calls, t);
      LevelAtLeast(p, s, u);
      if level >= p.capacity {
        LevelAtMost(p, Some(s), u);
        FullStaysFull(p, BucketState(level, u), calls[1..], t);
      } else {
        DeniedCallsAreHarmless(p, BucketState(level, u), calls[1..], t);
        GainSplits(p, u - s.updatedAt, t - u);
        assert (u - s.updatedAt) + (t - u) == t - s.updatedAt;
      }
    }
  }

  /** The readings of `calls` never step back, from `t` on and up to `end`. */
  predicate SteadyFrom(t: real, calls: seq<Call>, end: real)
    decreases |calls|
  {
    if calls == [] then t <= end else t <= calls[0].now && SteadyFrom(calls[0].now, calls[1..], end)
  }

  /** With a steady clock the level rises by no more than the time adds. */
  lemma {:induction false} LevelRisesWithTime(p: Policy, s: BucketState, calls: seq<Call>, t: real)
    requires AllDenied(p, s, calls) && SteadyFrom(s.updatedAt, calls, t)
    ensures LevelLater(p, s, calls, t) <= s.tokens + Gain(p, t - s.updatedAt)
    decreases |calls|
  {
    if calls == [] {
      LevelAtMost(p, Some(s), t);
    } else {
      var u := calls[0].now;
      var level := Level(p, Some(s), u);
      DeniedStep(p, s, calls, t);
      LevelAtMost(p, Some(s), u);
      LevelRisesWithTime(p, BucketState(level, u), calls[1..], t);
      GainSplits(p, u - s.updatedAt, t - u);
      assert (u - s.updatedAt) + (t - u) == t - s.updatedAt;
    }
  }

  /** The state a denied call leaves. */
  function Found(p: Policy, s: Option<BucketState>, now: real): BucketState {
    BucketState(Level(p, s, now), now)
  }

  lemma DeniedLeaves(p: Policy, s: Option<BucketState>, cost: real, now: real)
    requires Answer(p, s, cost, now).Denied?
    ensures After(p, s, cost, now) == Found(p, s, now) && Level(p, s, now) < cost
    ensures Answer(p, s, cost, now).retryAfterSeconds
         == Min(LONGEST_RETRY, Ceil((cost - Level(p, s, now)) / p.refillPerSecond))
  {
  }

  /** A call for `cost` at `now` is denied; `calls` are denied as well; then the request is repeated at `t`. */
  function RepeatedAnswer(p: Policy, s: Option<BucketState>, cost: real, now: real, calls: seq<Call>, t: real)
    : Decision
  {
    Answer(p, Some(AfterAll(p, After(p, s, cost, now), calls)), cost, t)
  }

  /** Waiting as long as the answer says is enough, whatever denied calls come in between. */
  lemma WaitingSuffices(p: Policy, s: Option<BucketState>, cost: real, now: real, calls: seq<Call>, t: real)
    requires Answer(p, s, cost, now).Denied? && AllDenied(p, After(p, s, cost, now), calls)
    requires cost <= p.capacity && Ceil((cost - Level(p, s, now)) / p.refillPerSecond) <= LONGEST_RETRY
    requires t >= now + Answer(p, s, cost, now).retryAfterSeconds as real
    ensures RepeatedAnswer(p, s, cost, now, calls, t) == Allowed
  {
    var deficit := cost - Level(p, s, now);
    DeniedLeaves(p, s, cost, now);
    WaitFills(p, deficit);
    CeilBounds(deficit / p.refillPerSecond);
    DeniedCallsAreHarmless(p, Found(p, s, now), calls, t);
    GainMonotone(p, deficit / p.refillPerSecond, t - now);
  }

  /** Waiting for less than the deficit needs is not, with a clock that does not step back. */
  lemma TooSoon(p: Policy, s: Option<BucketState>, cost: real, now: real, calls: seq<Call>, t: real)
    requires Answer(p, s, cost, now).Denied? && AllDenied(p, After(p, s, cost, now), calls)
    requires t - now < (cost - Level(p, s, now)) / p.refillPerSecond && SteadyFrom(now, calls, t)
    ensures RepeatedAnswer(p, s, cost, now, calls, t).Denied?
  {
    var deficit := cost - Level(p, s, now);
    DeniedLeaves(p, s, cost, now);
    WaitFills(p, deficit);
    LevelRisesWithTime(p, Found(p, s, now), calls, t);
    GainMonotone(p, t - now, deficit / p.refillPerSecond);
  }

  /** Waiting any smaller whole number of seconds is not enough. */
  lemma WaitingLessFails(p: Policy, s: Option<BucketState>, cost: real, now: real, calls: seq<Call>, seconds: nat)
    requires Answer(p, s, cost, now).Denied? && AllDenied(p, After(p, s, cost, now), calls)
    requires seconds < Answer(p, s, cost, now).retryAfterSeconds && SteadyFrom(now, calls, now + seconds as real)
    ensures RepeatedAnswer(p, s, cost, now, calls, now + seconds as real).Denied?
  {
    DeniedLeaves(p, s, cost, now);
    CeilBounds((cost - Level(p, s, now)) / p.refillPerSecond);
    TooSoon(p, s, cost, now, calls, now + seconds as real);
  }

  /** The promise of the answer: the same request that many seconds later is allowed. */
  predicate Kept(p: Policy, s: Option<BucketState>, cost: real, now: real)
    requires Answer(p, s, cost, now).Denied?
  {
    RepeatedAnswer(p, s, cost, now, [], now + Answer(p, s, cost, now).retryAfterSeconds as real) == Allowed
  }

  /** The promise is kept exactly when the cost fits the bucket and the wait is not cut to an hour. */
  lemma RetryAfterIsExact(p: Policy, s: Option<BucketState>, cost: real, now: real)
    requires Answer(p, s, cost, now).Denied?
    ensures Kept(p, s, cost, now)
       <==> cost <= p.capacity && Ceil((cost - Level(p, s, now)) / p.refillPerSecond) <= LONGEST_RETRY
  {
    var wait := (cost - Level(p, s, now)) / p.refillPerSecond;
    var t := now + Answer(p, s, cost, now).retryAfterSeconds as real;
    DeniedLeaves(p, s, cost, now);
    if cost > p.capacity {
      TooMuchIsNeverGranted(p, Some(AfterAll(p, After(p, s, cost, now), [])), cost, t);
    } else if Ceil(wait) <= LONGEST_RETRY {
      WaitingSuffices(p, s, cost, now, [], t);
    } else {
      CeilBounds(wait);
      TooSoon(p, s, cost, now, [], t);
    }
  }

  /** A request for more than the bucket holds is denied in every state, at every time. */
  lemma TooMuchIsNeverGranted(p: Policy, s: Option<BucketState>, cost: real, now: real)
    requires cost > p.capacity
    ensures Answer(p, s, cost, now).Denied?
  {
  }

  /** For the policies the gateway ships, a request of cost one always gets an answer that is kept. */
  lemma DefaultAnswersAreKept(bucket: string, s: Option<BucketState>, now: real)
    requires bucket in DefaultBucketPolicies() && (s.Some? ==> InRange(DefaultBucketPolicies()[bucket], s.value))
    requires Answer(DefaultBucketPolicies()[bucket], s, 1.0, now).Denied?
    ensures Kept(DefaultBucketPolicies()[bucket], s, 1.0, now)
  {
  }
}
