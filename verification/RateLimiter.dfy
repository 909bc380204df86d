/**
 The request limiters. A token bucket that is brought up to date only when a request passes, and
 a limiter that passes one request per time window. Times are seconds on a monotonic clock.
 */
module RateLimiter {

  // ---------- the bucket ----------

  /** The bucket's content and when it was last brought up to date. */
  datatype Bucket = Bucket(tokens: real, last: real)

  function Min(a: real, b: real): real {
    if b < a then b else a
  }

  /** The tokens that arrive between two times. */
  function Gain(rps: real, from: real, to: real): real {
    (to - from) * rps
  }

  /** The tokens a bucket holds at time t; a time before the last update adds none. */
  function Available(rps: real, burst: int, b: Bucket, t: real): real {
    Min(b.tokens + Gain(rps, Min(b.last, t), t), burst as real)
  }

  predicate Passes(rps: real, burst: int, b: Bucket, t: real) {
    rps > 0.0 && burst > 0 && Available(rps, burst, b, t) >= 1.0
  }

  /** The bucket after a request at time t: unchanged when the request is refused. */
  function Lazy(rps: real, burst: int, b: Bucket, t: real): Bucket {
    if Passes(rps, burst, b, t) then Bucket(Available(rps, burst, b, t) - 1.0, t) else b
  }

  /** The textbook bucket: brought up to date at every request. */
  function Eager(rps: real, burst: int, b: Bucket, t: real): Bucket {
    if Passes(rps, burst, b, t) then Bucket(Available(rps, burst, b, t) - 1.0, t)
    else Bucket(Available(rps, burst, b, t), t)
  }

  function Decisions(rps: real, burst: int, b: Bucket, times: seq<real>): (r: seq<bool>)
    ensures |r| == |times|
    decreases |times|
  {
    if times == [] then []
    else [Passes(rps, burst, b, times[0])] + Decisions(rps, burst, Lazy(rps, burst, b, times[0]), times[1..])
  }

  function EagerDecisions(rps: real, burst: int, b: Bucket, times: seq<real>): (r: seq<bool>)
    ensures |r| == |times|
    decreases |times|
  {
    if times == [] then []
    else [Passes(rps, burst, b, times[0])] + EagerDecisions(rps, burst, Eager(rps, burst, b, times[0]), times[1..])
  }

  ghost predicate Ascending(from: real, times: seq<real>) {
    (forall i | 0 <= i < |times| :: from <= times[i]) &&
    forall i, j | 0 <= i < j < |times| :: times[i] <= times[j]
  }

  ghost predicate BucketInv(burst: int, b: Bucket) {
    0.0 <= b.tokens <= burst as real
  }

  lemma GainAdds(rps: real, from: real, via: real, to: real)
    ensures Gain(rps, from, via) + Gain(rps, via, to) == Gain(rps, from, to)
  {
  }

  lemma GainIsPositive(rps: real, from: real, to: real)
    requires rps > 0.0 && from <= to
    ensures Gain(rps, from, to) >= 0.0
  {
  }

  /** Tokens stay between none and the burst. */
  lemma LazyKeepsInv(rps: real, burst: int, b: Bucket, t: real)
    requires BucketInv(burst, b)
    ensures BucketInv(burst, Lazy(rps, burst, b, t))
  {
  }

  /** Two buckets that hold the same from time t on. */
  ghost predicate SameFrom(rps: real, burst: int, b: Bucket, e: Bucket, t: real) {
    forall u | t <= u :: Available(rps, burst, b, u) == Available(rps, burst, e, u)
  }

  /** Bringing a bucket up to date changes nothing for the future. */
  lemma RefillIsInvisible(rps: real, burst: int, b: Bucket, t: real, u: real)
    requires rps > 0.0 && b.last <= t <= u
    ensures Available(rps, burst, Bucket(Available(rps, burst, b, t), t), u) == Available(rps, burst, b, u)
  {
    GainAdds(rps, b.last, t, u);
    GainIsPositive(rps, t, u);
  }

  /** The lazy bucket decides every request as the textbook bucket does. */
  lemma {:induction false} LazyIsEager(rps: real, burst: int, b: Bucket, e: Bucket, from: real, times: seq<real>)
    requires b.last <= from && e.last <= from && Ascending(from, times)
    requires rps > 0.0 ==> SameFrom(rps, burst, b, e, from)
    ensures Decisions(rps, burst, b, times) == EagerDecisions(rps, burst, e, times)
    decreases |times|
  {
    if times != [] {
      var t := times[0];
      var b', e' := Lazy(rps, burst, b, t), Eager(rps, burst, e, t);
      if rps > 0.0 {
        forall u | t <= u
          ensures Available(rps, burst, b', u) == Available(rps, burst, e', u)
        {
          RefillIsInvisible(rps, burst, e, t, u);
        }
      }
      LazyIsEager(rps, burst, b', e', t, times[1..]);
    }
  }

  // ---------- the rate ----------

  function Passed(decisions: seq<bool>): nat {
    if decisions == [] then 0 else (if decisions[0] then 1 else 0) + Passed(decisions[1..])
  }

  /**
   From any bucket in order, the requests that pass between times s and t number at most the tokens
   then in the bucket and those that arrive.
   */
  lemma {:induction false} RateBound(rps: real, burst: int, b: Bucket, s: real, t: real, times: seq<real>)
    requires rps > 0.0 && burst > 0 && BucketInv(burst, b) && b.last <= s <= t
    requires Ascending(s, times) && forall i | 0 <= i < |times| :: times[i] <= t
    ensures Passed(Decisions(rps, burst, b, times)) as real <= Available(rps, burst, b, s) + Gain(rps, s, t)
    decreases |times|
  {
    AvailableInRange(rps, burst, b, s);
    GainIsPositive(rps, s, t);
    if times != [] {
      var u := times[0];
      var b' := Lazy(rps, burst, b, u);
      AvailableInRange(rps, burst, b, u);
      RateBound(rps, burst, b', u, t, times[1..]);
      AvailableGrows(rps, burst, b, s, u);
      AvailableAfter(rps, burst, b, u);
      GainAdds(rps, s, u, t);
      assert Decisions(rps, burst, b, times)[1..] == Decisions(rps, burst, b', times[1..]);
    }
  }

  lemma AvailableInRange(rps: real, burst: int, b: Bucket, t: real)
    requires rps > 0.0 && burst > 0 && BucketInv(burst, b) && b.last <= t
    ensures 0.0 <= Available(rps, burst, b, t) <= burst as real
  {
    GainIsPositive(rps, b.last, t);
  }

  /** A request that passes takes one token. */
  lemma AvailableAfter(rps: real, burst: int, b: Bucket, u: real)
    requires rps > 0.0 && b.last <= u
    ensures Available(rps, burst, Lazy(rps, burst, b, u), u)
            == Available(rps, burst, b, u) - if Passes(rps, burst, b, u) then 1.0 else 0.0
  {
    GainAdds(rps, u, u, u);
  }

  lemma AvailableGrows(rps: real, burst: int, b: Bucket, s: real, u: real)
    requires rps > 0.0 && b.last <= s <= u
    ensures Available(rps, burst, b, u) <= Available(rps, burst, b, s) + Gain(rps, s, u)
  {
    GainAdds(rps, b.last, s, u);
    GainIsPositive(rps, s, u);
  }

  /** Never more than burst + rps * (t - s) requests pass between s and t, with any bucket at s. */
  lemma RateNeverExceeded(rps: real, burst: int, b: Bucket, s: real, t: real, times: seq<real>)
    requires rps > 0.0 && burst > 0 && BucketInv(burst, b) && b.last <= s <= t
    requires Ascending(s, times) && forall i | 0 <= i < |times| :: times[i] <= t
    ensures Passed(Decisions(rps, burst, b, times)) as real <= burst as real + rps * (t - s)
  {
    RateBound(rps, burst, b, s, t, times);
  }

  // ---------- what passes ----------

  /** A request passes exactly when the bucket then holds a token, counting what has arrived since its last update. */
  lemma PassesWithToken(rps: real, burst: int, b: Bucket, t: real)
    requires rps > 0.0 && burst > 0
    ensures Passes(rps, burst, b, t) <==>
            b.tokens + (if t < b.last then 0.0 else (t - b.last) * rps) >= 1.0
  {
    assert Gain(rps, t, t) == 0.0;
  }

  lemma NoneWithoutRate(rps: real, burst: int, b: Bucket, t: real)
    requires rps <= 0.0 || burst <= 0
    ensures !Passes(rps, burst, b, t) && Lazy(rps, burst, b, t) == b
  {
  }

  /** A bucket with a token for each of them passes all requests, however close together: a full one passes a burst. */
  lemma {:induction false} BurstPasses(rps: real, burst: int, b: Bucket, from: real, times: seq<real>)
    requires rps > 0.0 && b.tokens <= burst as real && |times| as real <= b.tokens
    requires b.last <= from && Ascending(from, times)
    ensures forall i | 0 <= i < |times| :: Decisions(rps, burst, b, times)[i]
    decreases |times|
  {
    if times != [] {
      var t := times[0];
      GainIsPositive(rps, b.last, t);
      var b' := Lazy(rps, burst, b, t);
      assert b.tokens >= 1.0 && burst > 0;
      assert Available(rps, burst, b, t) >= b.tokens;
      assert b' == Bucket(Available(rps, burst, b, t) - 1.0, t);
      BurstPasses(rps, burst, b', t, times[1..]);
    }
  }

  /** When a full bucket meets a burst and one request more at one time, that one is refused. */
  lemma BurstIsAll(rps: real, burst: int, t: real, times: seq<real>)
    requires rps > 0.0 && burst > 0 && |times| > burst && forall i | 0 <= i < |times| :: times[i] == t
    ensures Passed(Decisions(rps, burst, Bucket(burst as real, t), times)) == burst
  {
    var b := Bucket(burst as real, t);
    GainAdds(rps, t, t, t);
    RateBound(rps, burst, b, t, t, times);
    BurstPasses(rps, burst, b, t, times[..burst]);
    DecisionsOfPrefix(rps, burst, b, times, burst);
    var decisions := Decisions(rps, burst, b, times);
    forall i | 0 <= i < burst
      ensures decisions[i]
    {
      assert decisions[..burst][i];
    }
    AllPassed(decisions, burst);
  }

  lemma {:induction false} DecisionsOfPrefix(rps: real, burst: int, b: Bucket, times: seq<real>, n: nat)
    requires n <= |times|
    ensures Decisions(rps, burst, b, times[..n]) == Decisions(rps, burst, b, times)[..n]
    decreases n
  {
    if n > 0 {
      assert times[..n][1..] == times[1..][..n - 1];
      DecisionsOfPrefix(rps, burst, Lazy(rps, burst, b, times[0]), times[1..], n - 1);
    }
  }

  lemma {:induction false} AllPassed(decisions: seq<bool>, n: nat)
    requires n <= |decisions| && forall i | 0 <= i < n :: decisions[i]
    ensures Passed(decisions) >= n
    decreases n
  {
    if n > 0 {
      AllPassed(decisions[1..], n - 1);
    }
  }

  /** Requests far enough apart for a token to arrive in between all pass, for ever. */
  lemma {:induction false} SteadyRatePasses(rps: real, burst: int, b: Bucket, times: seq<real>)
    requires rps > 0.0 && burst > 0 && BucketInv(burst, b)
    requires times != [] ==> b.last <= times[0] && b.tokens + Gain(rps, b.last, times[0]) >= 1.0
    requires forall i, j | 0 <= i < j < |times| && j == i + 1 ::
               times[i] <= times[j] && Gain(rps, times[i], times[j]) >= 1.0
    ensures forall i | 0 <= i < |times| :: Decisions(rps, burst, b, times)[i]
    decreases |times|
  {
    if times != [] {
      var t, rest := times[0], times[1..];
      PassesWithToken(rps, burst, b, t);
      var b' := Lazy(rps, burst, b, t);
      LazyKeepsInv(rps, burst, b, t);
      if rest != [] {
        assert rest[0] == times[1];
      }
      SteadyRatePasses(rps, burst, b', rest);
    }
  }

  // ---------- the limiter objects ----------

  class RpsLimiter {
    const rps: real
    const burst: int
    var tokens: real
    var last: real

    ghost function Value(): Bucket
      reads this
    {
      Bucket(tokens, last)
    }

    /** A new limiter has an empty bucket dated before every reading of the clock. */
    constructor (rps: real, burst: int, epoch: real)
      ensures this.rps == rps && this.burst == burst && Value() == Bucket(0.0, epoch)
    {
      this.rps, this.burst, tokens, last := rps, burst, 0.0, epoch;
    }

    method CalculateTokens(t: real) returns (available: real)
      ensures available == Available(rps, burst, Value(), t)
    {
      var from := last;
      if t < from {
        from := t;
      }
      assert from == Min(last, t);
      available := tokens + Gain(rps, from, t);
      if available > burst as real {
        available := burst as real;
      }
    }

    method Allow(timeNow: real) returns (ok: bool)
      modifies this
      ensures ok <==> Passes(rps, burst, old(Value()), timeNow)
      ensures Value() == Lazy(rps, burst, old(Value()), timeNow)
    {
      if rps <= 0.0 || burst <= 0 {
        return false;
      }
      var available := CalculateTokens(timeNow);
      available := available - 1.0;
      if available < 0.0 {
        return false;
      }
      last, tokens := timeNow, available;
      return true;
    }
  }

  // ---------- one request per window ----------

  /** A request: the clock when it is decided and, a little later, when it is recorded. */
  datatype Reading = Reading(now: int, stamp: int)

  /** The time zero means that no request has passed yet. */
  predicate WindowPasses(window: int, last: int, r: Reading) {
    last == 0 || r.now >= last + window
  }

  function LastPassed(window: int, last: int, r: Reading): int {
    if WindowPasses(window, last, r) then r.stamp else last
  }

  /** The last request recorded before request i. */
  function LastBefore(window: int, readings: seq<Reading>, i: nat): int
    requires i <= |readings|
  {
    if i == 0 then 0 else LastPassed(window, LastBefore(window, readings, i - 1), readings[i - 1])
  }

  ghost predicate ClockAdvances(readings: seq<Reading>) {
    (forall i | 0 <= i < |readings| :: 0 < readings[i].now <= readings[i].stamp) &&
    forall i, j | 0 <= i < j < |readings| :: readings[i].stamp <= readings[j].now
  }

  lemma {:induction false} LastIsRecent(window: int, readings: seq<Reading>, i: nat, j: nat)
    requires window >= 0 && ClockAdvances(readings) && i < j <= |readings|
    requires WindowPasses(window, LastBefore(window, readings, i), readings[i])
    ensures LastBefore(window, readings, j) >= readings[i].stamp
    decreases j
  {
    if j > i + 1 {
      LastIsRecent(window, readings, i, j - 1);
    }
  }

  /** Any two requests that pass are a window apart. */
  lemma PassesAreApart(window: int, readings: seq<Reading>, i: nat, j: nat)
    requires window >= 0 && ClockAdvances(readings) && i < j < |readings|
    requires WindowPasses(window, LastBefore(window, readings, i), readings[i])
    requires WindowPasses(window, LastBefore(window, readings, j), readings[j])
    ensures readings[j].now >= readings[i].stamp + window
  {
    LastIsRecent(window, readings, i, j);
  }

  /** The first request passes, and any other that comes a window after the last one that passed. */
  lemma {:induction false} WindowPassesAgain(window: int, readings: seq<Reading>, i: nat)
    requires window >= 0 && ClockAdvances(readings) && i < |readings|
    requires forall j | 0 <= j < i && WindowPasses(window, LastBefore(window, readings, j), readings[j]) ::
               readings[j].stamp + window <= readings[i].now
    ensures WindowPasses(window, LastBefore(window, readings, i), readings[i])
  {
    LastIsSome(window, readings, i);
  }

  /** What is recorded is the time of a request that passed. */
  lemma {:induction false} LastIsSome(window: int, readings: seq<Reading>, i: nat)
    requires i <= |readings|
    ensures LastBefore(window, readings, i) == 0
            || exists j :: 0 <= j < i && WindowPasses(window, LastBefore(window, readings, j), readings[j])
                           && readings[j].stamp == LastBefore(window, readings, i)
  {
    if i > 0 {
      LastIsSome(window, readings, i - 1);
    }
  }

  class TimeWindowLimiter {
    const expiredTime: int
    var lastRequestTime: int

    constructor (expiredTime: int)
      ensures this.expiredTime == expiredTime && lastRequestTime == 0
    {
      this.expiredTime, lastRequestTime := expiredTime, 0;
    }

    method Allow(now: int, stamp: int) returns (ok: bool)
      modifies this
      ensures ok <==> WindowPasses(expiredTime, old(lastRequestTime), Reading(now, stamp))
      ensures lastRequestTime == LastPassed(expiredTime, old(lastRequestTime), Reading(now, stamp))
    {
      if lastRequestTime == 0 {
        lastRequestTime := stamp;
        return true;
      }
      if now < lastRequestTime + expiredTime {
        return false;
      }
      lastRequestTime := stamp;
      return true;
    }
  }
}
