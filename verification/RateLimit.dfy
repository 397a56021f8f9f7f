/** The token-bucket script that all workers share through Redis (app/infrastructure/redis_rate_limit.py).
    Times are seconds on one clock. */
module RedisRateLimit {
  import opened AuctionTypes
  import opened Rates

  /** The hash under the limiter's key, and the instant at which the key expires. */
  datatype Bucket = Bucket(tokens: real, ts: real, expireAt: real)

  datatype Limit = Limit(rate: real, capacity: real) {
    predicate Valid() { 0.0 < rate && 1.0 <= capacity }
  }

  const KEY_TTL: real := 60.0

  function Live(stored: Option<Bucket>, now: real): Option<Bucket> {
    if stored.Some? && now < stored.value.expireAt then stored else None
  }

  /** The tokens at `now`; negative while slots after `now` are already reserved. */
  function Refilled(b: Bucket, now: real, limit: Limit): real {
    var t := b.tokens + (now - b.ts) * limit.rate;
    if limit.capacity < t then limit.capacity else t
  }

  function TokensAt(live: Option<Bucket>, now: real, limit: Limit): real {
    if live.None? then limit.capacity else Refilled(live.value, now, limit)
  }

  function Wait(live: Option<Bucket>, now: real, limit: Limit): real
    requires limit.Valid()
  {
    var t := TokensAt(live, now, limit);
    if t >= 1.0 then 0.0 else (1.0 - t) / limit.rate
  }

  /** What a call leaves in the hash. */
  function Reserve(live: Option<Bucket>, now: real, limit: Limit): Bucket
    requires limit.Valid()
  {
    var t := TokensAt(live, now, limit);
    Bucket(if t >= 1.0 then t - 1.0 else 0.0, now + Wait(live, now, limit), now + KEY_TTL)
  }

  class RedisBucket {
    var stored: Option<Bucket>

    constructor ()
      ensures stored == None
    {
      stored := None;
    }

    /** The script, statement by statement. */
    method Acquire(now: real, limit: Limit) returns (wait: real)
      requires limit.Valid()
      modifies this
      ensures wait == Wait(old(Live(stored, now)), now, limit)
      ensures stored == Some(Reserve(old(Live(stored, now)), now, limit))
    {
      var data := Live(stored, now);
      var tokens, ts := limit.capacity, now;
      if data.Some? {
        ts := data.value.ts;
        tokens := data.value.tokens + (now - ts) * limit.rate;
        if limit.capacity < tokens {
          tokens := limit.capacity;
        }
      }
      if tokens >= 1.0 {
        tokens := tokens - 1.0;
        stored := Some(Bucket(tokens, now, now + KEY_TTL));
        return 0.0;
      }
      wait := (1.0 - tokens) / limit.rate;
      stored := Some(Bucket(0.0, now + wait, now + KEY_TTL));
    }
  }

  // ---------------------------------------------------------------- one call

  /** What every call leaves behind; a slot in the future means that no token is left. */
  predicate Sound(b: Bucket, lastCall: real, limit: Limit) {
    && 0.0 <= b.tokens <= limit.capacity - 1.0
    && (lastCall < b.ts ==> b.tokens == 0.0)
    && b.expireAt == lastCall + KEY_TTL
  }

  /** The bucket refills completely before its key expires. */
  predicate RefillsBeforeExpiry(b: Bucket, limit: Limit)
    requires limit.Valid()
  {
    b.ts + (limit.capacity - b.tokens) / limit.rate <= b.expireAt
  }

  /** Nothing is lost at `now`: the key is still there, or the bucket is full again by then. */
  predicate Kept(b: Bucket, now: real, limit: Limit) {
    b.expireAt <= now ==> limit.capacity <= b.tokens + (now - b.ts) * limit.rate
  }

  lemma RefilledByExpiry(b: Bucket, now: real, limit: Limit)
    requires limit.Valid() && RefillsBeforeExpiry(b, limit)
    ensures Kept(b, now, limit)
  {
    if b.expireAt <= now {
      var fill := (limit.capacity - b.tokens) / limit.rate;
      DivMul(limit.capacity - b.tokens, limit.rate);
      MulMono(fill, now - b.ts, limit.rate);
    }
  }

  /** Losing the key is unobservable, whenever the next call comes, exactly if the bucket refills first. */
  lemma ExpiryUnobservableIff(b: Bucket, limit: Limit)
    requires limit.Valid()
    ensures (forall now :: b.expireAt <= now ==> Reserve(Some(b), now, limit) == Reserve(None, now, limit))
       <==> RefillsBeforeExpiry(b, limit)
  {
    if RefillsBeforeExpiry(b, limit) {
      forall now | b.expireAt <= now
        ensures Reserve(Some(b), now, limit) == Reserve(None, now, limit)
      {
        RefilledByExpiry(b, now, limit);
      }
    } else {
      var now := b.expireAt;
      var fill := (limit.capacity - b.tokens) / limit.rate;
      DivMul(limit.capacity - b.tokens, limit.rate);
      if fill * limit.rate <= (now - b.ts) * limit.rate {
        MulLess(now - b.ts, fill, limit.rate);
      }
      ShortOfCapacity(b, now, limit);
    }
  }

  lemma ShortOfCapacity(b: Bucket, now: real, limit: Limit)
    requires limit.Valid() && b.tokens + (now - b.ts) * limit.rate < limit.capacity
    ensures Reserve(Some(b), now, limit) != Reserve(None, now, limit)
  {
    var t := Refilled(b, now, limit);
    if t < 1.0 {
      DivMul(1.0 - t, limit.rate);
      GainIsTime((1.0 - t) / limit.rate, limit.rate);
    }
  }

  /** A refused call takes the slot that follows the last one as soon as the stored tokens allow. */
  lemma RefusedSlot(b: Bucket, now: real, limit: Limit)
    requires limit.Valid() && Refilled(b, now, limit) < 1.0
    ensures (Reserve(Some(b), now, limit).ts - b.ts) * limit.rate == 1.0 - b.tokens
  {
    var t := Refilled(b, now, limit);
    var wait := (1.0 - t) / limit.rate;
    DivMul(1.0 - t, limit.rate);
    Distribute(now - b.ts, wait, limit.rate);
    assert (now - b.ts) + wait == now + wait - b.ts;
  }

  /** One call that loses nothing: the slot does not move back, and the tokens account for the time between
      the two slots less the one token this call took. */
  lemma CallAccounts(b: Bucket, lastCall: real, now: real, limit: Limit)
    requires limit.Valid() && Sound(b, lastCall, limit) && lastCall <= now && Kept(b, now, limit)
    ensures
      var b' := Reserve(Live(Some(b), now), now, limit);
      && Sound(b', now, limit)
      && b.ts <= b'.ts
      && b'.tokens <= b.tokens + (b'.ts - b.ts) * limit.rate - 1.0
  {
    if b.expireAt <= now {
      FullAgain(b, now, limit);
      assert Live(Some(b), now) == None;
    } else {
      LiveCallAccounts(b, lastCall, now, limit);
    }
  }

  lemma FullAgain(b: Bucket, now: real, limit: Limit)
    requires limit.Valid() && b.tokens <= limit.capacity - 1.0
    requires limit.capacity <= b.tokens + (now - b.ts) * limit.rate
    ensures b.ts <= now
    ensures limit.capacity - 1.0 <= b.tokens + (now - b.ts) * limit.rate - 1.0
    ensures Reserve(None, now, limit) == Bucket(limit.capacity - 1.0, now, now + KEY_TTL)
  {
    var gain := (now - b.ts) * limit.rate;
    assert 0.0 < gain;
    GainIsTime(now - b.ts, limit.rate);
  }

  lemma LiveCallAccounts(b: Bucket, lastCall: real, now: real, limit: Limit)
    requires limit.Valid() && Sound(b, lastCall, limit) && lastCall <= now
    ensures
      var b' := Reserve(Some(b), now, limit);
      && Sound(b', now, limit)
      && b.ts <= b'.ts
      && b'.tokens <= b.tokens + (b'.ts - b.ts) * limit.rate - 1.0
  {
    var gain := (now - b.ts) * limit.rate;
    GainSign(now - b.ts, limit.rate);
    if b.tokens + gain < 1.0 {
      RefusedSlot(b, now, limit);
      var b' := Reserve(Some(b), now, limit);
      GainIsTime(b'.ts - b.ts, limit.rate);
      DivMul(1.0 - (b.tokens + gain), limit.rate);
    }
  }

  /** A call whose wait is short enough leaves a bucket that refills before the key expires. */
  lemma ShortWaitRefills(live: Option<Bucket>, now: real, limit: Limit)
    requires limit.Valid()
    requires Wait(live, now, limit) <= KEY_TTL - limit.capacity / limit.rate
    ensures RefillsBeforeExpiry(Reserve(live, now, limit), limit)
  {
    var b := Reserve(live, now, limit);
    DivMul(b.tokens, limit.rate);
    var x, y := (limit.capacity - b.tokens) / limit.rate, limit.capacity / limit.rate;
    DivMul(limit.capacity - b.tokens, limit.rate);
    DivMul(limit.capacity, limit.rate);
    if x * limit.rate < y * limit.rate {
      MulLess(x, y, limit.rate);
    } else {
      assert b.tokens == 0.0;
    }
  }

  // ---------------------------------------------------------------- whole runs

  /** The hash after calls at these times, from an absent key. */
  function After(calls: seq<real>, limit: Limit): Option<Bucket>
    requires limit.Valid()
  {
    if calls == [] then None
    else
      var now := calls[|calls| - 1];
      Some(Reserve(Live(After(calls[..|calls| - 1], limit), now), now, limit))
  }

  function WaitOf(calls: seq<real>, i: int, limit: Limit): real
    requires limit.Valid() && 0 <= i < |calls|
  {
    Wait(Live(After(calls[..i], limit), calls[i]), calls[i], limit)
  }

  /** The slot that call `i` reserved: the `ts` it stored. */
  function Slot(calls: seq<real>, i: int, limit: Limit): real
    requires limit.Valid() && 0 <= i < |calls|
  {
    After(calls[..i + 1], limit).value.ts
  }

  ghost predicate Ordered(calls: seq<real>) {
    forall i, j :: 0 <= i <= j < |calls| ==> calls[i] <= calls[j]
  }

  /** Every call finds the bucket the previous one left, or one that is full again anyway. */
  ghost predicate NothingLost(calls: seq<real>, limit: Limit)
    requires limit.Valid()
  {
    forall i {:trigger After(calls[..i], limit)} ::
      0 < i < |calls| ==> Kept(After(calls[..i], limit).value, calls[i], limit)
  }

  lemma NothingLostPrefix(calls: seq<real>, n: nat, limit: Limit)
    requires limit.Valid() && n <= |calls| && Ordered(calls) && NothingLost(calls, limit)
    ensures Ordered(calls[..n]) && NothingLost(calls[..n], limit)
  {
    forall i | 0 < i < n
      ensures Kept(After(calls[..n][..i], limit).value, calls[..n][i], limit)
    {
      assert calls[..n][..i] == calls[..i];
    }
  }

  lemma {:induction false} RunSound(calls: seq<real>, limit: Limit)
    requires limit.Valid() && calls != [] && Ordered(calls) && NothingLost(calls, limit)
    ensures Sound(After(calls, limit).value, calls[|calls| - 1], limit)
  {
    var n := |calls| - 1;
    if n > 0 {
      NothingLostPrefix(calls, n, limit);
      RunSound(calls[..n], limit);
      CallAccounts(After(calls[..n], limit).value, calls[n - 1], calls[n], limit);
    }
  }

  /** Nothing is lost when every call is asked to wait at most 60 seconds less the time to fill the bucket. */
  lemma ShortWaitsLoseNothing(calls: seq<real>, limit: Limit)
    requires limit.Valid()
    requires forall i {:trigger WaitOf(calls, i, limit)} ::
      0 <= i < |calls| ==> WaitOf(calls, i, limit) <= KEY_TTL - limit.capacity / limit.rate
    ensures NothingLost(calls, limit)
  {
    forall i | 0 < i < |calls|
      ensures Kept(After(calls[..i], limit).value, calls[i], limit)
    {
      var now := calls[i - 1];
      var live := Live(After(calls[..i - 1], limit), now);
      assert calls[..i][..i - 1] == calls[..i - 1];
      assert WaitOf(calls, i - 1, limit) == Wait(live, now, limit);
      AtMostCapacity(calls[..i - 1], limit);
      ShortWaitRefills(live, now, limit);
      AtMostCapacity(calls[..i], limit);
      RefilledByExpiry(After(calls[..i], limit).value, calls[i], limit);
    }
  }

  lemma AtMostCapacity(calls: seq<real>, limit: Limit)
    requires limit.Valid()
    ensures After(calls, limit).Some? ==> After(calls, limit).value.tokens <= limit.capacity - 1.0
  {
  }

  /** The tokens that call `i` left. */
  function TokensLeft(calls: seq<real>, i: int, limit: Limit): real
    requires limit.Valid() && 0 <= i < |calls|
  {
    After(calls[..i + 1], limit).value.tokens
  }

  /** What the rate alone would have handed out by the last slot, less what is still stored. */
  function Used(b: Bucket, limit: Limit): real {
    b.ts * limit.rate - b.tokens
  }

  /** A call is charged one token exactly when the bucket it should have found was not lost. */
  lemma CallUsesOneIff(b: Bucket, lastCall: real, now: real, limit: Limit)
    requires limit.Valid() && Sound(b, lastCall, limit) && lastCall <= now
    ensures Used(b, limit) + 1.0 <= Used(Reserve(Live(Some(b), now), now, limit), limit) <==> Kept(b, now, limit)
  {
    var b' := Reserve(Live(Some(b), now), now, limit);
    Distribute(b'.ts - b.ts, b.ts, limit.rate);
    Distribute(now - b.ts, b.ts, limit.rate);
    if Kept(b, now, limit) {
      CallAccounts(b, lastCall, now, limit);
    }
  }

  function UsedBy(calls: seq<real>, i: int, limit: Limit): real
    requires limit.Valid() && 0 <= i < |calls|
  {
    Used(After(calls[..i + 1], limit).value, limit)
  }

  lemma NextSlotAccounts(calls: seq<real>, j: nat, limit: Limit)
    requires limit.Valid() && 0 < j < |calls| && Ordered(calls) && NothingLost(calls, limit)
    ensures Slot(calls, j - 1, limit) <= Slot(calls, j, limit)
    ensures UsedBy(calls, j - 1, limit) + 1.0 <= UsedBy(calls, j, limit)
  {
    NothingLostPrefix(calls, j, limit);
    RunSound(calls[..j], limit);
    CallAccounts(After(calls[..j], limit).value, calls[j - 1], calls[j], limit);
    CallUsesOneIff(After(calls[..j], limit).value, calls[j - 1], calls[j], limit);
    assert calls[..j + 1][..j] == calls[..j];
  }

  lemma {:induction false} SlotsAccount(calls: seq<real>, i: nat, j: nat, limit: Limit)
    requires limit.Valid() && i <= j < |calls| && Ordered(calls) && NothingLost(calls, limit)
    ensures Slot(calls, i, limit) <= Slot(calls, j, limit)
    ensures UsedBy(calls, i, limit) + (j - i) as real <= UsedBy(calls, j, limit)
    decreases j
  {
    if i < j {
      SlotsAccount(calls, i, j - 1, limit);
      NextSlotAccounts(calls, j, limit);
    }
  }

  /** What a stretch of slots from `first` to `last` may hand out. */
  function Allowance(first: real, last: real, limit: Limit): real {
    limit.capacity + (last - first) * limit.rate
  }

  /** Any stretch of reserved slots respects the bucket: slots never move back, the stored tokens stay in
      `[0, capacity - 1]`, and calls `i..j` reserve at most `capacity` plus `rate` per second between their slots. */
  lemma SlotsRespectLimit(calls: seq<real>, i: nat, j: nat, limit: Limit)
    requires limit.Valid() && i <= j < |calls| && Ordered(calls) && NothingLost(calls, limit)
    ensures Slot(calls, i, limit) <= Slot(calls, j, limit)
    ensures 0.0 <= TokensLeft(calls, j, limit) <= limit.capacity - 1.0
    ensures (j - i + 1) as real <= Allowance(Slot(calls, i, limit), Slot(calls, j, limit), limit)
  {
    SlotsAccount(calls, i, j, limit);
    NothingLostPrefix(calls, i + 1, limit);
    NothingLostPrefix(calls, j + 1, limit);
    RunSound(calls[..i + 1], limit);
    RunSound(calls[..j + 1], limit);
    UsedBetween(After(calls[..i + 1], limit).value, After(calls[..j + 1], limit).value, (j - i) as real, limit);
  }

  lemma UsedBetween(b: Bucket, b': Bucket, n: real, limit: Limit)
    requires b.tokens <= limit.capacity - 1.0 && 0.0 <= b'.tokens && Used(b, limit) + n <= Used(b', limit)
    ensures n + 1.0 <= Allowance(b.ts, b'.ts, limit)
  {
    Distribute(b'.ts - b.ts, b.ts, limit.rate);
  }

  // ---------------------------------------------------------------- the condition is needed

  lemma {:induction false} QueueAtZero(calls: seq<real>)
    requires calls != [] && forall i :: 0 <= i < |calls| ==> calls[i] == 0.0
    ensures After(calls, Limit(1.0, 1.0)) == Some(Bucket(0.0, (|calls| - 1) as real, KEY_TTL))
  {
    var init := calls[..|calls| - 1];
    if init != [] {
      QueueAtZero(init);
    }
  }

  /** With one request per second, 62 calls at once reserve slots up to second 61; the key expires at second 60,
      and the call made then is let through at once, before a slot that is already promised. */
  lemma LongQueueIsForgotten() returns (calls: seq<real>)
    ensures |calls| == 63 && Ordered(calls)
    ensures Slot(calls, 61, Limit(1.0, 1.0)) == 61.0
    ensures Slot(calls, 62, Limit(1.0, 1.0)) == 60.0 && WaitOf(calls, 62, Limit(1.0, 1.0)) == 0.0
    ensures Allowance(61.0, 60.0, Limit(1.0, 1.0)) < 2.0
  {
    var zeros := seq(62, _ => 0.0);
    calls := zeros + [60.0];
    assert calls[..62] == zeros;
    assert calls[..63] == calls && calls[..63][..62] == zeros;
    QueueAtZero(zeros);
  }
}

/** The in-process token bucket (app/infrastructure/ratelimit.py) and the waiting loop over it. */
module InMemoryRateLimit {
  import opened Rates

  /** A monotonic clock that only `Sleep` moves: one caller, exact sleeps. */
  class Clock {
    var now: real

    method Sleep(seconds: real)
      requires 0.0 <= seconds
      modifies this
      ensures now == old(now) + seconds
    {
      now := now + seconds;
    }
  }

  datatype State = State(tokens: real, last: real)

  function Refill(s: State, now: real, rate: real, burst: int): real {
    var t := s.tokens + (now - s.last) * rate;
    if burst as real < t then burst as real else t
  }

  function WaitAt(s: State, now: real, rate: real, burst: int): real
    requires 0.0 < rate
  {
    var t := Refill(s, now, rate, burst);
    if t >= 1.0 then 0.0 else (1.0 - t) / rate
  }

  function Taken(s: State, now: real, rate: real, burst: int): State {
    var t := Refill(s, now, rate, burst);
    State(if t >= 1.0 then t - 1.0 else t, now)
  }

  predicate Granted(s: State, now: real, rate: real, burst: int) {
    Refill(s, now, rate, burst) >= 1.0
  }

  class InMemoryRateLimiter {
    const rate: real
    const burst: int
    const clock: Clock
    var tokens: real
    var last: real

    constructor (rate: real, burst: int, clock: Clock)
      ensures this.rate == rate && this.burst == burst && this.clock == clock
      ensures View() == State(burst as real, clock.now)
    {
      this.rate, this.burst, this.clock := rate, burst, clock;
      tokens, last := burst as real, clock.now;
    }

    function View(): State
      reads this
    {
      State(tokens, last)
    }

    method Acquire() returns (wait: real)
      requires 0.0 < rate
      modifies this
      ensures View() == Taken(old(View()), clock.now, rate, burst)
      ensures wait == WaitAt(old(View()), clock.now, rate, burst)
    {
      var now := clock.now;
      ghost var refilled := Refill(View(), now, rate, burst);
      tokens := tokens + (now - last) * rate;
      if burst as real < tokens {
        tokens := burst as real;
      }
      last := now;
      assert tokens == refilled;
      if tokens >= 1.0 {
        tokens := tokens - 1.0;
        return 0.0;
      }
      return (1.0 - tokens) / rate;
    }
  }

  /** The wait that a refused call asks for is exact, if the bucket can hold a token at all: the next call is granted if
      it comes that much later, and refused if it comes sooner. */
  lemma WaitIsExact(s: State, now: real, later: real, rate: real, burst: int)
    requires 0.0 < rate && 1 <= burst && !Granted(s, now, rate, burst)
    ensures 0.0 < WaitAt(s, now, rate, burst)
    ensures Granted(Taken(s, now, rate, burst), later, rate, burst) <==> now + WaitAt(s, now, rate, burst) <= later
  {
    var missing := 1.0 - Refill(s, now, rate, burst);
    DivMul(missing, rate);
    var wait := missing / rate;
    Distribute(later - now - wait, wait, rate);
    GainSign(later - now - wait, rate);
  }

  /** After a refused call and exactly the wait it asked for, a bucket that can hold a token holds one. */
  lemma WaitSuffices(s: State, now: real, rate: real, burst: int)
    requires 0.0 < rate && 1 <= burst && !Granted(s, now, rate, burst)
    ensures
      var wait := WaitAt(s, now, rate, burst);
      0.0 < wait && Granted(Taken(s, now, rate, burst), now + wait, rate, burst)
  {
    WaitIsExact(s, now, now + WaitAt(s, now, rate, burst), rate, burst);
  }

  lemma WaitAdvances(s: State, now: real, rate: real, burst: int)
    requires 0.0 < rate && burst < 1
    ensures WaitAt(s, now, rate, burst) * rate >= 1.0 && WaitAt(s, now, rate, burst) > 0.0
  {
    DivMul(1.0 - Refill(s, now, rate, burst), rate);
  }

  lemma WaitSign(s: State, now: real, rate: real, burst: int)
    requires 0.0 < rate
    ensures if Granted(s, now, rate, burst) then WaitAt(s, now, rate, burst) == 0.0
            else WaitAt(s, now, rate, burst) > 0.0
    ensures burst < 1 ==> !Granted(s, now, rate, burst)
  {
    if !Granted(s, now, rate, burst) {
      DivMul(1.0 - Refill(s, now, rate, burst), rate);
    }
  }

  lemma FloorDrops(x: real, y: real)
    requires y <= x - 1.0
    ensures y.Floor < x.Floor
  {
  }

  lemma TimeLeft(deadline: real, before: real, now: real, wait: real, rate: real)
    requires 0.0 < rate && now == before + wait && now <= deadline
    ensures (deadline - now) * rate == (deadline - before) * rate - wait * rate
    ensures 0.0 <= (deadline - now) * rate
  {
    Distribute(deadline - now, wait, rate);
    assert (deadline - now) + wait == deadline - before;
    GainSign(deadline - now, rate);
  }

  /** `acquire_with_wait` for a sole caller: it succeeds exactly when the first call is granted, or asks for a
      wait that fits the timeout of a bucket that can hold a token; then at most two calls are made. */
  method AcquireWithWait(limiter: InMemoryRateLimiter, timeout: real) returns (ok: bool, calls: nat)
    requires 0.0 < limiter.rate
    modifies limiter, limiter.clock
    ensures ok <==>
      || old(Granted(limiter.View(), limiter.clock.now, limiter.rate, limiter.burst))
      || (1 <= limiter.burst && old(WaitAt(limiter.View(), limiter.clock.now, limiter.rate, limiter.burst)) <= timeout)
    ensures 1 <= limiter.burst ==> calls <= 2
    ensures limiter.clock.now <= old(limiter.clock.now) + timeout || limiter.clock.now == old(limiter.clock.now)
  {
    hide Granted, WaitAt, Taken;
    var clock, rate, burst := limiter.clock, limiter.rate, limiter.burst;
    var deadline := clock.now + timeout;
    ghost var s0, t0 := limiter.View(), clock.now;
    calls := 0;
    while true
      invariant limiter.clock == clock && limiter.rate == rate && limiter.burst == burst
      invariant calls == 0 ==> limiter.View() == s0 && clock.now == t0
      invariant 0 < calls ==> !Granted(s0, t0, rate, burst) && clock.now <= deadline
      invariant 0 < calls && 1 <= burst ==>
        calls == 1 && WaitAt(s0, t0, rate, burst) <= timeout && Granted(limiter.View(), clock.now, rate, burst)
      decreases
        if 1 <= burst then 2 - calls else ((deadline - clock.now) * rate).Floor,
        if calls == 0 then 1 else 0
    {
      ghost var s := limiter.View();
      var wait := limiter.Acquire();
      calls := calls + 1;
      WaitSign(s, clock.now, rate, burst);
      if Granted(s, clock.now, rate, burst) {
      } else if 1 <= burst {
        WaitSuffices(s, clock.now, rate, burst);
      } else {
        WaitAdvances(s, clock.now, rate, burst);
      }
      if wait <= 0.0 {
        return true, calls;
      }
      if clock.now + wait > deadline {
        return false, calls;
      }
      ghost var before := clock.now;
      clock.Sleep(wait);
      TimeLeft(deadline, before, clock.now, wait, rate);
      if burst < 1 {
        FloorDrops((deadline - before) * rate, (deadline - clock.now) * rate);
      }
    }
  }

  // ---------------------------------------------------------------- whole runs

  function After(s: State, calls: seq<real>, rate: real, burst: int): State {
    if calls == [] then s
    else Taken(After(s, calls[..|calls| - 1], rate, burst), calls[|calls| - 1], rate, burst)
  }

  /** How many of the calls are let through. */
  function Grants(s: State, calls: seq<real>, rate: real, burst: int): nat {
    if calls == [] then 0
    else
      var before := After(s, calls[..|calls| - 1], rate, burst);
      Grants(s, calls[..|calls| - 1], rate, burst)
      + if Granted(before, calls[|calls| - 1], rate, burst) then 1 else 0
  }

  ghost predicate Ordered(start: real, calls: seq<real>) {
    && (forall i :: 0 <= i < |calls| ==> start <= calls[i])
    && (forall i, j :: 0 <= i <= j < |calls| ==> calls[i] <= calls[j])
  }

  /** One call: the tokens it leaves, plus the one it may hand out. */
  lemma CallAccounts(s: State, now: real, rate: real, burst: int)
    requires 0.0 < rate && s.last <= now && 0.0 <= s.tokens <= burst as real
    ensures
      var s' := Taken(s, now, rate, burst);
      var left := s'.tokens + if Granted(s, now, rate, burst) then 1.0 else 0.0;
      && 0.0 <= s'.tokens <= left <= burst as real
      && left - now * rate <= s.tokens - s.last * rate
  {
    var gain := (now - s.last) * rate;
    GainBounds(s.last, now, rate);
    var t := Refill(s, now, rate, burst);
    assert t == if burst as real < s.tokens + gain then burst as real else s.tokens + gain;
    assert s.tokens <= t <= burst as real;
  }

  lemma GainBounds(last: real, now: real, rate: real)
    requires 0.0 < rate && last <= now
    ensures 0.0 <= (now - last) * rate
    ensures (now - last) * rate == now * rate - last * rate
  {
  }

  /** The invariant of a run of calls whose first one came at `first`. */
  ghost predicate Accounted(s: State, grants: nat, first: real, rate: real, burst: int) {
    0.0 <= s.tokens <= burst as real && s.tokens - s.last * rate + grants as real <= burst as real - first * rate
  }

  lemma NextCallAccounts(s: State, grants: nat, first: real, now: real, rate: real, burst: int)
    requires 0.0 < rate && s.last <= now && Accounted(s, grants, first, rate, burst)
    ensures
      Accounted(Taken(s, now, rate, burst), grants + if Granted(s, now, rate, burst) then 1 else 0, first, rate, burst)
  {
    CallAccounts(s, now, rate, burst);
  }

  lemma {:induction false} TokensAccount(s: State, calls: seq<real>, rate: real, burst: int)
    requires 0.0 < rate && 0.0 <= s.tokens <= burst as real && Ordered(s.last, calls) && calls != []
    ensures After(s, calls, rate, burst).last == calls[|calls| - 1]
    ensures Accounted(After(s, calls, rate, burst), Grants(s, calls, rate, burst), calls[0], rate, burst)
  {
    var init, now := calls[..|calls| - 1], calls[|calls| - 1];
    if init == [] {
      CallAccounts(s, now, rate, burst);
    } else {
      TokensAccount(s, init, rate, burst);
      NextCallAccounts(After(s, init, rate, burst), Grants(s, init, rate, burst), calls[0], now, rate, burst);
    }
  }

  lemma {:induction false} AfterAppend(s: State, a: seq<real>, b: seq<real>, rate: real, burst: int)
    ensures After(s, a + b, rate, burst) == After(After(s, a, rate, burst), b, rate, burst)
    ensures Grants(s, a + b, rate, burst)
         == Grants(s, a, rate, burst) + Grants(After(s, a, rate, burst), b, rate, burst)
  {
    if b == [] {
      assert a + b == a;
    } else {
      var init := b[..|b| - 1];
      AfterAppend(s, a, init, rate, burst);
      assert (a + b)[..|a + b| - 1] == a + init;
    }
  }

  /** What a window from `first` to `last` may hand out. */
  function Allowance(first: real, last: real, rate: real, burst: int): real {
    burst as real + (last - first) * rate
  }

  /** In any run, the calls of any window are granted at most `burst` plus `rate` per second of the window, and
      the tokens stay within `[0, burst]`. */
  lemma WindowRespectsLimit(s: State, before: seq<real>, window: seq<real>, rate: real, burst: int)
    requires 0.0 < rate && 0.0 <= s.tokens <= burst as real
    requires Ordered(s.last, before + window) && window != []
    ensures 0.0 <= After(s, before + window, rate, burst).tokens <= burst as real
    ensures (Grants(s, before + window, rate, burst) - Grants(s, before, rate, burst)) as real
         <= Allowance(window[0], window[|window| - 1], rate, burst)
  {
    WindowStarts(s, before, window, rate, burst);
    AfterAppend(s, before, window, rate, burst);
    GrantsFrom(After(s, before, rate, burst), window, rate, burst);
  }

  lemma GrantsFrom(s: State, calls: seq<real>, rate: real, burst: int)
    requires 0.0 < rate && 0.0 <= s.tokens <= burst as real && Ordered(s.last, calls) && calls != []
    ensures 0.0 <= After(s, calls, rate, burst).tokens <= burst as real
    ensures Grants(s, calls, rate, burst) as real <= Allowance(calls[0], calls[|calls| - 1], rate, burst)
  {
    TokensAccount(s, calls, rate, burst);
    WindowArithmetic(After(s, calls, rate, burst), Grants(s, calls, rate, burst), calls[0], rate, burst);
  }

  lemma WindowArithmetic(s: State, grants: nat, first: real, rate: real, burst: int)
    requires Accounted(s, grants, first, rate, burst)
    ensures grants as real <= Allowance(first, s.last, rate, burst)
  {
    Distribute(s.last - first, first, rate);
  }

  lemma WindowStarts(s: State, before: seq<real>, window: seq<real>, rate: real, burst: int)
    requires 0.0 < rate && 0.0 <= s.tokens <= burst as real && Ordered(s.last, before + window)
    ensures 0.0 <= After(s, before, rate, burst).tokens <= burst as real
    ensures Ordered(After(s, before, rate, burst).last, window)
  {
    OrderedParts(s.last, before, window);
    if before != [] {
      TokensAccount(s, before, rate, burst);
    }
  }

  lemma OrderedParts(start: real, before: seq<real>, window: seq<real>)
    requires Ordered(start, before + window)
    ensures Ordered(start, before)
    ensures Ordered(if before == [] then start else before[|before| - 1], window)
  {
    assert forall i :: 0 <= i < |before| ==> (before + window)[i] == before[i];
    assert forall i :: 0 <= i < |window| ==> (before + window)[|before| + i] == window[i];
  }
}
