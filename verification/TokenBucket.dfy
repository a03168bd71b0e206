/**
 The rate limiter: a token bucket shared by any number of callers. A call takes its tokens under
 the lock, going into debt if it must, and sleeps outside the lock until the debt is paid. Times
 and tokens are real numbers; a call reads the clock inside the lock, so the calls are ordered by
 their clock readings.
 */
module TokenBucket {

  /** Tokens earned in `d` seconds, and the seconds it takes to earn `x` tokens. */
  function Gain(rate: real, d: real): real {
    rate * d
  }

  function Delay(rate: real, x: real): real
    requires rate > 0.0
  {
    x / rate
  }

  lemma GainSum(rate: real, x: real, y: real)
    ensures Gain(rate, x + y) == Gain(rate, x) + Gain(rate, y)
    ensures Gain(rate, 0.0) == 0.0
  {
  }

  lemma GainIs(rate: real, d: real)
    ensures Gain(rate, d) == rate * d
  {
  }

  lemma GainOrder(rate: real, x: real, y: real)
    requires rate > 0.0
    ensures Gain(rate, x) <= Gain(rate, y) <==> x <= y
  {
    if x < y {
      assert rate * (y - x) > 0.0;
    } else if y < x {
      assert rate * (x - y) > 0.0;
    }
  }

  lemma GainDelay(rate: real, x: real)
    requires rate > 0.0 && x >= 0.0
    ensures Gain(rate, Delay(rate, x)) == x && Delay(rate, x) >= 0.0
  {
  }

  lemma DelayPays(rate: real, x: real)
    requires rate > 0.0
    ensures Delay(rate, x) * rate == x
  {
  }

  datatype Bucket = Bucket(tokens: real, last: real)

  /** A call of `throttle`: the clock reading and the number of bytes. */
  datatype Call = Call(now: real, n: nat)

  datatype Limit = Limit(rate: real, burst: real, t0: real) {
    ghost predicate Valid() {
      rate > 0.0 && burst >= rate
    }

    /** The bucket after a call. */
    function Take(b: Bucket, c: Call): Bucket {
      var refilled := b.tokens + Gain(rate, c.now - b.last);
      Bucket((if refilled > burst then burst else refilled) - c.n as real, c.now)
    }

    /** The bucket after the first `k` calls, from a full bucket at `t0`. */
    function After(calls: seq<Call>, k: nat): Bucket
      requires k <= |calls|
    {
      if k == 0 then Bucket(burst, t0) else Take(After(calls, k - 1), calls[k - 1])
    }

    function Sleep(b: Bucket): (d: real)
      requires Valid()
    {
      if b.tokens < 0.0 then Delay(rate, -b.tokens) else 0.0
    }

    /** When call `k` may return. */
    function Done(calls: seq<Call>, k: nat): real
      requires Valid() && k < |calls|
    {
      calls[k].now + Sleep(After(calls, k + 1))
    }
  }

  /** The clock does not run backwards. */
  ghost predicate Ordered(t0: real, calls: seq<Call>) {
    && (forall k :: 0 <= k < |calls| ==> t0 <= calls[k].now)
    && (forall j, k :: 0 <= j <= k < |calls| ==> calls[j].now <= calls[k].now)
  }

  /** Bytes of calls `j .. k-1`. */
  function Bytes(calls: seq<Call>, j: nat, k: nat): nat
    requires j <= k <= |calls|
  {
    if j == k then 0 else Bytes(calls, j, k - 1) + calls[k - 1].n
  }

  /** The debt is paid when the call may return, and not before. */
  lemma DebtPaid(l: Limit, calls: seq<Call>, k: nat)
    requires l.Valid() && k < |calls|
    ensures var b, d := l.After(calls, k + 1), l.Done(calls, k) - calls[k].now;
            d >= 0.0 && Gain(l.rate, d) == if b.tokens < 0.0 then -b.tokens else 0.0
  {
    hide Gain;
    hide Delay;
    var b := l.After(calls, k + 1);
    GainSum(l.rate, 0.0, 0.0);
    if b.tokens < 0.0 {
      GainDelay(l.rate, -b.tokens);
    }
  }

  lemma {:induction false} Level(l: Limit, calls: seq<Call>, j: nat, k: nat)
    requires l.Valid() && j < k <= |calls| && Ordered(l.t0, calls)
    ensures l.After(calls, k).last == calls[k - 1].now
    ensures l.After(calls, k).tokens <=
            l.burst + Gain(l.rate, calls[k - 1].now - calls[j].now) - Bytes(calls, j, k) as real
    decreases k
  {
    hide Gain;
    GainSum(l.rate, 0.0, 0.0);
    if k > j + 1 {
      Level(l, calls, j, k - 1);
      var dt := calls[k - 1].now - calls[k - 2].now;
      GainSum(l.rate, calls[k - 2].now - calls[j].now, dt);
      assert calls[k - 1].now - calls[j].now == (calls[k - 2].now - calls[j].now) + dt;
    }
  }

  lemma WindowGain(l: Limit, calls: seq<Call>, j: nat, k: nat)
    requires l.Valid() && j <= k < |calls| && Ordered(l.t0, calls)
    ensures Bytes(calls, j, k + 1) as real <= l.burst + Gain(l.rate, l.Done(calls, k) - calls[j].now)
  {
    hide Gain;
    hide Delay;
    Level(l, calls, j, k + 1);
    DebtPaid(l, calls, k);
    var d, w := l.Done(calls, k) - calls[k].now, calls[k].now - calls[j].now;
    GainSum(l.rate, d, w);
    assert l.Done(calls, k) - calls[j].now == d + w;
  }

  /** Any window of calls: their bytes are at most the burst plus the rate times the time from the
      first call to the moment the last one may return. */
  lemma Window(l: Limit, calls: seq<Call>, j: nat, k: nat)
    requires l.Valid() && j <= k < |calls| && Ordered(l.t0, calls)
    ensures Bytes(calls, j, k + 1) as real <= l.burst + l.rate * (l.Done(calls, k) - calls[j].now)
  {
    hide *;
    WindowGain(l, calls, j, k);
    GainIs(l.rate, l.Done(calls, k) - calls[j].now);
  }

  /** Calls may return in the order in which they took the lock. */
  lemma {:induction false} DoneInOrder(l: Limit, calls: seq<Call>, j: nat, k: nat)
    requires l.Valid() && j <= k < |calls| && Ordered(l.t0, calls)
    ensures l.Done(calls, j) <= l.Done(calls, k)
    decreases k - j
  {
    hide Gain;
    hide Delay;
    if j < k {
      DoneInOrder(l, calls, j, k - 1);
      NextDone(l, calls, k - 1);
    }
  }

  lemma NextDone(l: Limit, calls: seq<Call>, k: nat)
    requires l.Valid() && k + 1 < |calls| && Ordered(l.t0, calls)
    ensures l.Done(calls, k) <= l.Done(calls, k + 1)
  {
    hide Gain;
    hide Delay;
    DebtPaid(l, calls, k);
    DebtPaid(l, calls, k + 1);
    Level(l, calls, k, k + 1);
    var d, d', dt := l.Done(calls, k) - calls[k].now, l.Done(calls, k + 1) - calls[k + 1].now,
      calls[k + 1].now - calls[k].now;
    GainSum(l.rate, d', dt);
    GainOrder(l.rate, 0.0, d' + dt);
    GainOrder(l.rate, d, d' + dt);
  }

  /** Bytes of the calls that have returned by `t`, when call `k` returns at `rets[k]`. */
  function Returned(calls: seq<Call>, rets: seq<real>, t: real, k: nat): nat
    requires k <= |calls| == |rets|
  {
    if k == 0 then 0
    else Returned(calls, rets, t, k - 1) + if rets[k - 1] <= t then calls[k - 1].n else 0
  }

  lemma {:induction false} RateGain(l: Limit, calls: seq<Call>, rets: seq<real>, t: real, k: nat)
    requires l.Valid() && Ordered(l.t0, calls) && k <= |calls| == |rets| && l.t0 <= t
    requires forall i :: 0 <= i < |calls| ==> l.Done(calls, i) <= rets[i]
    ensures Returned(calls, rets, t, k) as real <= l.burst + Gain(l.rate, t - l.t0)
  {
    hide Gain;
    hide Delay;
    if k == 0 {
      GainSum(l.rate, 0.0, 0.0);
      GainOrder(l.rate, 0.0, t - l.t0);
    } else if rets[k - 1] <= t {
      ReturnedAtMost(calls, rets, t, k);
      WindowGain(l, calls, 0, k - 1);
      GainOrder(l.rate, l.Done(calls, k - 1) - calls[0].now, t - l.t0);
    } else {
      RateGain(l, calls, rets, t, k - 1);
    }
  }

  /** By any time `t`, whatever the callers and however late they wake up, the calls that have
      returned account for at most the burst plus the rate times the elapsed time. */
  lemma RateBound(l: Limit, calls: seq<Call>, rets: seq<real>, t: real, k: nat)
    requires l.Valid() && Ordered(l.t0, calls) && k <= |calls| == |rets| && l.t0 <= t
    requires forall i :: 0 <= i < |calls| ==> l.Done(calls, i) <= rets[i]
    ensures Returned(calls, rets, t, k) as real <= l.burst + l.rate * (t - l.t0)
  {
    hide *;
    RateGain(l, calls, rets, t, k);
    GainIs(l.rate, t - l.t0);
  }

  lemma {:induction false} ReturnedAtMost(calls: seq<Call>, rets: seq<real>, t: real, k: nat)
    requires k <= |calls| == |rets|
    ensures Returned(calls, rets, t, k) <= Bytes(calls, 0, k)
  {
    if k != 0 {
      ReturnedAtMost(calls, rets, t, k - 1);
    }
  }

  /** The last call before which the bucket was full. */
  lemma {:induction false} LastFull(l: Limit, calls: seq<Call>, k: nat) returns (j: nat)
    requires l.Valid() && k < |calls| && Ordered(l.t0, calls)
    ensures j <= k
    ensures l.After(calls, k + 1).tokens ==
            l.burst + Gain(l.rate, calls[k].now - calls[j].now) - Bytes(calls, j, k + 1) as real
    decreases k
  {
    hide Gain;
    GainSum(l.rate, 0.0, 0.0);
    var b := l.After(calls, k);
    j := k;
    if k == 0 {
      GainOrder(l.rate, 0.0, calls[0].now - l.t0);
    } else if b.tokens + Gain(l.rate, calls[k].now - b.last) <= l.burst {
      j := LastFull(l, calls, k - 1);
      Level(l, calls, k - 1, k);
      var w, dt := calls[k - 1].now - calls[j].now, calls[k].now - calls[k - 1].now;
      GainSum(l.rate, w, dt);
      assert calls[k].now - calls[j].now == w + dt;
    }
  }

  lemma SleepGain(l: Limit, calls: seq<Call>, k: nat) returns (j: nat)
    requires l.Valid() && k < |calls| && Ordered(l.t0, calls) && l.Done(calls, k) > calls[k].now
    ensures j <= k && Bytes(calls, j, k + 1) as real == l.burst + Gain(l.rate, l.Done(calls, k) - calls[j].now)
  {
    hide Gain;
    hide Delay;
    j := LastFull(l, calls, k);
    DebtPaid(l, calls, k);
    var d, w := l.Done(calls, k) - calls[k].now, calls[k].now - calls[j].now;
    GainSum(l.rate, d, w);
    GainOrder(l.rate, d, 0.0);
    GainSum(l.rate, 0.0, 0.0);
    assert l.Done(calls, k) - calls[j].now == d + w;
  }

  /** The bucket is no stricter than the limit: a call that must sleep sleeps exactly until some
      window that ends with it meets the limit. */
  lemma SleepIsNeeded(l: Limit, calls: seq<Call>, k: nat) returns (j: nat)
    requires l.Valid() && k < |calls| && Ordered(l.t0, calls) && l.Done(calls, k) > calls[k].now
    ensures j <= k && Bytes(calls, j, k + 1) as real == l.burst + l.rate * (l.Done(calls, k) - calls[j].now)
  {
    hide *;
    j := SleepGain(l, calls, k);
    GainIs(l.rate, l.Done(calls, k) - calls[j].now);
  }

  /** One call in plain arithmetic: the bucket is refilled at the rate, never above the burst, and the
      sleep earns exactly the debt that is left. */
  lemma TakeExact(l: Limit, b: Bucket, c: Call)
    requires l.Valid()
    ensures l.Take(b, c).last == c.now
    ensures var refilled := b.tokens + l.rate * (c.now - b.last);
            l.Take(b, c).tokens == (if refilled > l.burst then l.burst else refilled) - c.n as real
    ensures var left := l.Take(b, c); l.Sleep(left) * l.rate == if left.tokens < 0.0 then -left.tokens else 0.0
  {
    DelayPays(l.rate, -l.Take(b, c).tokens);
  }

  /** `rateLimiter` */
  class RateLimiter {
    const limit: Limit
    var tokens: real
    var last: real
    ghost var calls: seq<Call>

    ghost predicate Valid()
      reads this
    {
      && limit.Valid() && Ordered(limit.t0, calls)
      && Bucket(tokens, last) == limit.After(calls, |calls|)
      && last == if calls == [] then limit.t0 else calls[|calls| - 1].now
    }

    constructor (rate: real, now: real)
      requires rate > 0.0
      ensures Valid() && calls == [] && limit.rate == rate && limit.t0 == now
      ensures limit.burst == if rate < 262144.0 then 262144.0 else rate
    {
      var burst := if rate < 262144.0 then 262144.0 else rate;
      limit := Limit(rate, burst, now);
      tokens, last, calls := burst, now, [];
    }

    /** The lock section of `throttle`; the caller sleeps `sleep` afterwards. The bucket is refilled at
        the rate, never above the burst, and the sleep earns exactly the debt that is left. */
    method Throttle(now: real, n: nat) returns (sleep: real)
      requires Valid() && last <= now
      modifies this`tokens, this`last, this`calls
      ensures Valid() && calls == old(calls) + [Call(now, n)]
      ensures now + sleep == limit.Done(calls, |calls| - 1)
      ensures var refilled := old(tokens) + limit.rate * (now - old(last));
              tokens == (if refilled > limit.burst then limit.burst else refilled) - n as real
      ensures sleep * limit.rate == if tokens < 0.0 then -tokens else 0.0
    {
      hide Gain;
      hide Delay;
      hide Limit.After;
      hide Limit.Done;
      hide Ordered;
      TakeExact(limit, Bucket(tokens, last), Call(now, n));
      CallTakes(limit, calls, Call(now, n));
      calls := calls + [Call(now, n)];
      tokens := tokens + Gain(limit.rate, now - last);
      if tokens > limit.burst {
        tokens := limit.burst;
      }
      last := now;
      tokens := tokens - n as real;
      sleep := 0.0;
      if tokens < 0.0 {
        sleep := Delay(limit.rate, -tokens);
      }
    }
  }

  /** One more call at the end of a history. */
  lemma CallTakes(l: Limit, before: seq<Call>, c: Call)
    requires l.Valid() && Ordered(l.t0, before)
    requires (if before == [] then l.t0 else before[|before| - 1].now) <= c.now
    ensures var calls, b := before + [c], l.Take(l.After(before, |before|), c);
            && Ordered(l.t0, calls) && l.After(calls, |calls|) == b
            && l.Done(calls, |calls| - 1) == c.now + l.Sleep(b)
  {
    SamePrefix(l, before, before + [c], |before|);
  }

  lemma {:induction false} SamePrefix(l: Limit, a: seq<Call>, b: seq<Call>, k: nat)
    requires k <= |a| && a <= b
    ensures l.After(a, k) == l.After(b, k)
  {
    if k != 0 {
      SamePrefix(l, a, b, k - 1);
    }
  }
}
