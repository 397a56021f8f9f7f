/** Adaptive polling (app/domain/polling.py) and what it implies for a whole run of polls. */
module Polling {
  import opened AuctionTypes
  import opened Notifications

  datatype Intervals = Intervals(
    gt24h: int,
    from6hTo24h: int,
    from1hTo6h: int,
    from30mTo60m: int,
    from15mTo30m: int,
    lt15m: int)
  {
    predicate NonNegative() {
      0 <= gt24h && 0 <= from6hTo24h && 0 <= from1hTo6h && 0 <= from30mTo60m && 0 <= from15mTo30m && 0 <= lt15m
    }
  }

  /** app/config.py:28-33 */
  const DEFAULT_INTERVALS :=
    Intervals(6 * HOUR, 30 * MINUTE, 10 * MINUTE, 2 * MINUTE, 1 * MINUTE, 1 * MINUTE)

  function PollingIntervalFor(untilEnd: Option<int>, iv: Intervals): int {
    if untilEnd.None? then iv.from1hTo6h
    else if untilEnd.value > 24 * HOUR then iv.gt24h
    else if untilEnd.value > 6 * HOUR then iv.from6hTo24h
    else if untilEnd.value > HOUR then iv.from1hTo6h
    else if untilEnd.value > 30 * MINUTE then iv.from30mTo60m
    else if untilEnd.value > 15 * MINUTE then iv.from15mTo30m
    else iv.lt15m
  }

  /** Where an open observation moves `next_poll_at`. */
  function NextPollAt(s: AuctionState, iv: Intervals): Time {
    s.observedAt + PollingIntervalFor(s.UntilEnd(), iv)
  }

  /** Consecutive successful polls of an auction that ends at `end`, none before its `next_poll_at`. */
  predicate Paced(polls: seq<AuctionState>, end: Time) {
    && (forall i :: 0 <= i < |polls| ==> polls[i].endTime == Some(end))
    && (forall i :: 0 < i < |polls| ==> NextPollAt(polls[i - 1], DEFAULT_INTERVALS) <= polls[i].observedAt)
  }

  /** Every poll comes at most `delay` after its `next_poll_at`; it may come before it. */
  predicate Prompt(polls: seq<AuctionState>, iv: Intervals, delay: int) {
    forall i :: 0 < i < |polls| ==> polls[i].observedAt <= NextPollAt(polls[i - 1], iv) + delay
  }

  // ---------------------------------------------------------------- poll budget

  function CeilDiv(x: int, d: int): int
    requires d > 0
  {
    (x + d - 1) / d
  }

  /** How many polls can still happen before the end, `u` before it. */
  function Budget(u: int): int {
    if u <= 0 then 0
    else if u <= 30 * MINUTE then CeilDiv(u, MINUTE)
    else if u <= HOUR then 30 + CeilDiv(u - 30 * MINUTE, 2 * MINUTE)
    else if u <= 6 * HOUR then 45 + CeilDiv(u - HOUR, 10 * MINUTE)
    else if u <= 24 * HOUR then 75 + CeilDiv(u - 6 * HOUR, 30 * MINUTE)
    else 111 + CeilDiv(u - 24 * HOUR, 6 * HOUR)
  }

  lemma BudgetMonotone(u: int, v: int)
    requires u <= v
    ensures Budget(u) <= Budget(v)
  {
  }

  lemma CeilDivStep(x: int, d: int)
    requires 0 < d
    ensures CeilDiv(x - d, d) + 1 == CeilDiv(x, d)
    ensures 0 < x ==> 1 <= CeilDiv(x, d)
  {
    var q, r := (x - 1) / d, (x - 1) % d;
    assert x - 1 == q * d + r;
    assert x - 1 + d == (q + 1) * d + r;
    QuotientIs(x - 1 + d, d, q + 1, r);
    assert q < 0 ==> q * d <= -d;
  }

  lemma QuotientIs(x: int, d: int, q: int, r: int)
    requires 0 < d && x == q * d + r && 0 <= r < d
    ensures x / d == q
  {
    var k := x / d - q;
    assert k * d == r - x % d;
    assert k >= 1 ==> k * d >= d;
    assert k <= -1 ==> k * d <= -d;
  }

  /** One interval inside a bucket uses up one poll of it; a step out of it cannot cost less. */
  lemma BudgetDrops(u: int, next: int)
    requires 0 < u && next <= u - PollingIntervalFor(Some(u), DEFAULT_INTERVALS)
    ensures Budget(next) + 1 <= Budget(u)
  {
    var s := PollingIntervalFor(Some(u), DEFAULT_INTERVALS);
    var floor :=
      if u <= 30 * MINUTE then 0 else if u <= HOUR then 30 * MINUTE else if u <= 6 * HOUR then HOUR
      else if u <= 24 * HOUR then 6 * HOUR else 24 * HOUR;
    CeilDivStep(u - floor, s);
    BudgetMonotone(next, if floor < u - s then u - s else floor);
  }

  lemma {:induction false} PollsWithinBudget(polls: seq<AuctionState>, end: Time)
    requires polls != [] && Paced(polls, end)
    requires forall i :: 0 <= i < |polls| ==> polls[i].observedAt < end
    ensures |polls| <= Budget(end - polls[0].observedAt)
  {
    var u := end - polls[0].observedAt;
    if |polls| > 1 {
      assert NextPollAt(polls[0], DEFAULT_INTERVALS) <= polls[1].observedAt;
      PollsWithinBudget(polls[1..], end);
      BudgetDrops(u, end - polls[1].observedAt);
    }
  }

  /** A run that starts `u` before the end polls at most `ceil(max(0, u - 24h) / 6h) + 111` times before it. */
  lemma PollBudget(polls: seq<AuctionState>, end: Time)
    requires polls != [] && Paced(polls, end)
    requires forall i :: 0 <= i < |polls| ==> polls[i].observedAt < end
    ensures |polls| <= CeilDiv(Max(0, end - polls[0].observedAt - 24 * HOUR), 6 * HOUR) + 111
  {
    PollsWithinBudget(polls, end);
    if end - polls[0].observedAt <= 24 * HOUR {
      BudgetMonotone(end - polls[0].observedAt, 24 * HOUR);
    }
  }

  // ---------------------------------------------------------------- lateness of the timed notices

  /** Poll `i` is the one whose window contains the crossing of `threshold`. */
  predicate NoticedAt(polls: seq<AuctionState>, i: int, end: Time, threshold: int) {
    0 < i < |polls| && Crosses(end, threshold, polls[i - 1].observedAt, polls[i].observedAt)
  }

  /** How far the interval of a bucket above `floor` reaches past a threshold. */
  function Reach(interval: int, floor: int, threshold: int): int { interval - Max(0, floor - threshold) }

  /** How far a punctual poll comes past a threshold at most, less the resolution of the clock: the longest reach of
      the buckets that have instants before the crossing. */
  function Overshoot(iv: Intervals, threshold: int): int {
    var over24h := Reach(iv.gt24h, 24 * HOUR, threshold);
    var over6h := if threshold < 24 * HOUR then Max(over24h, Reach(iv.from6hTo24h, 6 * HOUR, threshold)) else over24h;
    var over1h := if threshold < 6 * HOUR then Max(over6h, Reach(iv.from1hTo6h, HOUR, threshold)) else over6h;
    var over30m := if threshold < HOUR then Max(over1h, Reach(iv.from30mTo60m, 30 * MINUTE, threshold)) else over1h;
    var over15m :=
      if threshold < 30 * MINUTE then Max(over30m, Reach(iv.from15mTo30m, 15 * MINUTE, threshold)) else over30m;
    if threshold < 15 * MINUTE then Max(over15m, iv.lt15m) else over15m
  }

  /** How far past `threshold` the interval from `u` before the end goes. */
  function Beyond(u: int, iv: Intervals, threshold: int): int { PollingIntervalFor(Some(u), iv) - (u - threshold) }

  ghost predicate AlwaysWithin(iv: Intervals, threshold: int, bound: int) {
    forall u :: u > threshold ==> Beyond(u, iv, threshold) < bound
  }

  /** No smaller bound will do. */
  lemma OvershootIsLeast(iv: Intervals, threshold: int, bound: int)
    ensures AlwaysWithin(iv, threshold, bound) <==> Overshoot(iv, threshold) <= bound
  {
    if AlwaysWithin(iv, threshold, bound) {
      assert Beyond(Max(24 * HOUR, threshold) + 1, iv, threshold) < bound;
      assert Beyond(Max(6 * HOUR, threshold) + 1, iv, threshold) < bound;
      assert Beyond(Max(HOUR, threshold) + 1, iv, threshold) < bound;
      assert Beyond(Max(30 * MINUTE, threshold) + 1, iv, threshold) < bound;
      assert Beyond(Max(15 * MINUTE, threshold) + 1, iv, threshold) < bound;
      assert Beyond(threshold + 1, iv, threshold) < bound;
    }
  }

  /** With the default intervals no slow bucket reaches a crossing: the pace is that of the crossing's own bucket. */
  lemma DefaultOvershoot(kind: Kind)
    requires kind.Timed()
    ensures Overshoot(DEFAULT_INTERVALS, DEFAULT_THRESHOLDS.For(kind)) == if kind.T30m? then 2 * MINUTE else MINUTE
  {
  }

  /** Whatever the intervals, the threshold and the delay, a poll that steps over a crossing is less than the overshoot
      and the delay behind it. */
  lemma NoBucketIsJumped(u: int, next: int, delay: int, iv: Intervals, threshold: int)
    requires u - PollingIntervalFor(Some(u), iv) - delay <= next && threshold < u
    ensures threshold - next < Overshoot(iv, threshold) + delay
  {
    OvershootIsLeast(iv, threshold, Overshoot(iv, threshold));
    assert Beyond(u, iv, threshold) < Overshoot(iv, threshold);
  }

  lemma {:induction false} CrossingPoll(polls: seq<AuctionState>, crossing: Time) returns (i: nat)
    requires polls != [] && polls[0].observedAt < crossing <= polls[|polls| - 1].observedAt
    ensures 0 < i < |polls| && polls[i - 1].observedAt < crossing <= polls[i].observedAt
  {
    if polls[|polls| - 2].observedAt < crossing {
      i := |polls| - 1;
    } else {
      i := CrossingPoll(polls[..|polls| - 1], crossing);
    }
  }

  /** Polls may be late by any `delay`, early, or even out of order: some poll after `polls[m]` steps over the crossing
      in time. */
  lemma NoticeIsPrompt(polls: seq<AuctionState>, end: Time, iv: Intervals, delay: int, threshold: int, m: nat)
    returns (i: nat)
    requires m < |polls| && Prompt(polls, iv, delay) && forall s :: s in polls ==> s.endTime == Some(end)
    requires polls[m].observedAt < end - threshold <= polls[|polls| - 1].observedAt
    ensures m < i && NoticedAt(polls, i, end, threshold)
    ensures polls[i].observedAt < end - threshold + Overshoot(iv, threshold) + delay
  {
    var x := CrossingPoll(polls[m..], end - threshold);
    i := m + x;
    assert polls[m..][x] == polls[i] && polls[m..][x - 1] == polls[i - 1];
    NoBucketIsJumped(end - polls[i - 1].observedAt, end - polls[i].observedAt, delay, iv, threshold);
  }

  /** A fixed end, polls from more than 30 minutes before it to its last 5 minutes, none more than `delay` late. */
  predicate LeadsUpTo(polls: seq<AuctionState>, end: Time, delay: int) {
    && polls != [] && Prompt(polls, DEFAULT_INTERVALS, delay) && (forall s :: s in polls ==> s.endTime == Some(end))
    && polls[0].observedAt < end - 30 * MINUTE && end - 5 * MINUTE <= polls[|polls| - 1].observedAt
  }

  /** With default intervals and at most 9 minutes of scheduling delay, polls that start more than 30 minutes before a
      fixed end and reach its last 5 minutes give the three notices in three distinct polls, in order, each within one
      poll interval of its moment plus the delay. */
  lemma NoticesArePromptAndOrdered(polls: seq<AuctionState>, end: Time, delay: int) returns (i: nat, j: nat, k: nat)
    requires LeadsUpTo(polls, end, delay) && delay <= 9 * MINUTE
    ensures i < j < k
    ensures NoticedAt(polls, i, end, DEFAULT_THRESHOLDS.For(T30m))
    ensures NoticedAt(polls, j, end, DEFAULT_THRESHOLDS.For(T15m))
    ensures NoticedAt(polls, k, end, DEFAULT_THRESHOLDS.For(T5m))
    ensures polls[i].observedAt < end - 30 * MINUTE + 2 * MINUTE + delay
    ensures polls[j].observedAt < end - 15 * MINUTE + 1 * MINUTE + delay
    ensures polls[k].observedAt < end - 5 * MINUTE + 1 * MINUTE + delay
  {
    DefaultOvershoot(T30m);
    DefaultOvershoot(T15m);
    DefaultOvershoot(T5m);
    hide Overshoot, Prompt;
    i := NoticeIsPrompt(polls, end, DEFAULT_INTERVALS, delay, DEFAULT_THRESHOLDS.For(T30m), 0);
    j := NoticeIsPrompt(polls, end, DEFAULT_INTERVALS, delay, DEFAULT_THRESHOLDS.For(T15m), i);
    k := NoticeIsPrompt(polls, end, DEFAULT_INTERVALS, delay, DEFAULT_THRESHOLDS.For(T5m), j);
  }

  /** The three notices come from three distinct polls, in order. */
  ghost predicate ThreeNotices(polls: seq<AuctionState>, end: Time) {
    exists i, j, k ::
      && i < j < k && NoticedAt(polls, i, end, 30 * MINUTE) && NoticedAt(polls, j, end, 15 * MINUTE)
      && NoticedAt(polls, k, end, 5 * MINUTE)
  }

  ghost predicate AlwaysThreeNotices(delay: int) {
    forall polls, end :: LeadsUpTo(polls, end, delay) ==> ThreeNotices(polls, end)
  }

  function At(end: Time, untilEnd: int): AuctionState {
    AuctionState("", None, None, None, None, Some(end), None, None, None, false, None, None, end - untilEnd)
  }

  /** With more delay one poll can step over the moments of two notices. */
  lemma TwoNoticesAtOnce(delay: int)
    requires delay > 9 * MINUTE
    ensures !AlwaysThreeNotices(delay)
  {
    var polls := [At(0, 30 * MINUTE + 1), At(0, 20 * MINUTE), At(0, 15 * MINUTE + 1), At(0, 5 * MINUTE)];
    assert LeadsUpTo(polls, 0, delay);
    assert !ThreeNotices(polls, 0);
  }

  /** The exact condition: the notices always come from three distinct polls if and only if the delay is at most 9
      minutes. */
  lemma ThreeNoticesIff(delay: int)
    ensures AlwaysThreeNotices(delay) <==> delay <= 9 * MINUTE
  {
    if delay <= 9 * MINUTE {
      forall polls, end | LeadsUpTo(polls, end, delay)
        ensures ThreeNotices(polls, end)
      {
        var i, j, k := NoticesArePromptAndOrdered(polls, end, delay);
      }
    } else {
      TwoNoticesAtOnce(delay);
    }
  }
}
