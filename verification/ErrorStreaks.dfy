/** Failures in a row: the counter, the backoff between attempts, and when monitoring gives up
    (app/services/monitoring_service.py:129-162). */
module ErrorStreaks {
  import opened AuctionTypes
  import opened Backoff
  import opened Tables
  import opened Monitoring
  import opened Runs
  import opened History
  import opened Pacing
  import Series

  function StreakBy(streak: nat, action: Action): nat {
    match action
    case Observe(_) => 0
    case Create(_, _, _) => 0
    case Fail(_, _) => streak + 1
    case _ => streak
  }

  /** The retryable failures of the auction since its last successful poll, or since its creation. Polls that
      stop monitoring at once, restarts and rescheduling do not count either way. */
  ghost function Streak(cfg: Settings, run: seq<Event>, i: nat, a: AuctionId): nat
    requires i <= |run|
  {
    if i == 0 then 0 else StreakBy(Streak(cfg, run, i - 1, a), ActionAt(cfg, run, i - 1, a))
  }

  predicate Counts(x: Slice, streak: nat) { x.row.Some? ==> x.row.value.consecutiveErrors == streak }

  lemma ActCounts(cfg: Settings, x: Slice, streak: nat, action: Action, next: int)
    requires Counts(x, streak)
    ensures Counts(Act(cfg, x, action, next), StreakBy(streak, action))
  {
  }

  ghost predicate CountsAt(cfg: Settings, run: seq<Event>, i: nat, a: AuctionId)
    requires i <= |run|
  {
    Counts(SliceAt(cfg, run, i, a), Streak(cfg, run, i, a))
  }

  lemma CountsNext(cfg: Settings, run: seq<Event>, i: nat, a: AuctionId)
    requires Valid(cfg, run) && i < |run| && CountsAt(cfg, run, i, a)
    ensures CountsAt(cfg, run, i + 1, a)
  {
    hide SliceAt, ActionAt, Valid, Act, SliceInv, Sensible;
    SliceStep(cfg, run, i, a);
    ActCounts(cfg, SliceAt(cfg, run, i, a), Streak(cfg, run, i, a), ActionAt(cfg, run, i, a),
              After(cfg, run[..i]).nextSnapshot);
  }

  lemma NothingToCount(cfg: Settings, run: seq<Event>, a: AuctionId)
    ensures CountsAt(cfg, run, 0, a)
  {
  }

  lemma {:induction false} CountsAlways(cfg: Settings, run: seq<Event>, i: nat, a: AuctionId)
    requires Valid(cfg, run) && i <= |run|
    ensures CountsAt(cfg, run, i, a)
  {
    hide *;
    if i == 0 {
      NothingToCount(cfg, run, a);
    } else {
      CountsAlways(cfg, run, i - 1, a);
      CountsNext(cfg, run, i - 1, a);
    }
  }

  /** The stored counter is the length of the streak. */
  lemma CounterIsStreak(cfg: Settings, run: seq<Event>, i: nat, a: AuctionId)
    requires Valid(cfg, run) && i <= |run|
    ensures
      var row := SliceAt(cfg, run, i, a).row;
      row.Some? ==> row.value.consecutiveErrors == Streak(cfg, run, i, a)
  {
    hide SliceAt, Streak, Valid;
    CountsAlways(cfg, run, i, a);
  }

  /** The row after the failure that makes the streak `streak` long. */
  predicate FailedAt(cfg: Settings, x: Slice, streak: nat, now: Time) {
    && x.row.Some?
    && (x.row.value.monitoringActive <==> streak < cfg.maxErrors)
    && x.row.value.nextPollAt == if streak < cfg.maxErrors then Some(now + BackoffFor(streak, cfg)) else None
  }

  lemma ActFails(cfg: Settings, x: Slice, streak: nat, message: string, now: Time, next: int)
    requires Counts(x, streak) && IsActive(x)
    ensures FailedAt(cfg, Act(cfg, x, Fail(message, now), next), streak + 1, now)
  {
  }

  /** A failure gives up exactly when it is at least the `maxErrors`-th of its streak; otherwise the next poll
      is due after the backoff for its place in the streak. */
  lemma FailureStopsIff(cfg: Settings, run: seq<Event>, i: nat, a: AuctionId)
    requires Valid(cfg, run) && i < |run| && ActionAt(cfg, run, i, a).Fail?
    ensures FailedAt(cfg, SliceAt(cfg, run, i + 1, a), Streak(cfg, run, i + 1, a), run[i].now)
  {
    CounterIsStreak(cfg, run, i, a);
    SliceStep(cfg, run, i, a);
    FailsNow(cfg, After(cfg, run[..i]), run[i], a);
    var action := ActionAt(cfg, run, i, a);
    ActFails(cfg, SliceAt(cfg, run, i, a), Streak(cfg, run, i, a), action.message, run[i].now,
             After(cfg, run[..i]).nextSnapshot);
  }

  lemma FailsNow(cfg: Settings, db: Db, e: Event, a: AuctionId)
    requires ActionOn(cfg, db, e, a).Fail?
    ensures ActionOn(cfg, db, e, a).at == e.now
  {
  }

  lemma FailureAddsOne(cfg: Settings, run: seq<Event>, i: nat, a: AuctionId)
    requires i < |run| && ActionAt(cfg, run, i, a).Fail?
    ensures Streak(cfg, run, i + 1, a) == Streak(cfg, run, i, a) + 1
  {
    hide ActionAt;
  }

  /** After step `i` the auction is due `wait` after the time of that step. */
  ghost predicate DueAfter(cfg: Settings, run: seq<Event>, i: nat, a: AuctionId, wait: int)
    requires i < |run|
  {
    var row := SliceAt(cfg, run, i + 1, a).row;
    row.Some? && row.value.nextPollAt == Some(run[i].now + wait)
  }

  lemma DueAfterBackoff(cfg: Settings, run: seq<Event>, i: nat, a: AuctionId, wait: int)
    requires Valid(cfg, run) && i < |run| && ActionAt(cfg, run, i, a).Fail?
    requires Streak(cfg, run, i + 1, a) < cfg.maxErrors
    ensures DueAfter(cfg, run, i, a, wait) <==> wait == BackoffFor(Streak(cfg, run, i + 1, a), cfg)
  {
    hide Streak, ActionAt, Valid, SliceAt, BackoffFor;
    FailureStopsIff(cfg, run, i, a);
  }

  /** The first failure of a streak, as long as it does not stop the auction, makes it due after the base backoff, or
      the cap if that is less. */
  lemma FirstFailureWaits(cfg: Settings, run: seq<Event>, i: nat, a: AuctionId)
    requires Valid(cfg, run) && i < |run| && ActionAt(cfg, run, i, a).Fail?
    requires Streak(cfg, run, i, a) == 0 && 1 < cfg.maxErrors
    ensures DueAfter(cfg, run, i, a, if cfg.backoffBase < cfg.backoffMax then cfg.backoffBase else cfg.backoffMax)
  {
    hide *;
    FailureAddsOne(cfg, run, i, a);
    BackoffDoubles(cfg, run, 0);
    DueAfterBackoff(cfg, run, i, a, BackoffFor(1, cfg));
  }

  lemma BackoffDoubles(cfg: Settings, run: seq<Event>, n: nat)
    requires Valid(cfg, run)
    ensures BackoffFor(1, cfg) == if cfg.backoffBase < cfg.backoffMax then cfg.backoffBase else cfg.backoffMax
    ensures
      var wait := BackoffFor(n + 1, cfg);
      BackoffFor(n + 2, cfg) == if 2 * wait < cfg.backoffMax then 2 * wait else cfg.backoffMax
  {
    WaitDoubles(n, cfg.backoffBase, cfg.backoffMax);
  }

  /** Each further failure of the streak, as long as it does not stop the auction, makes it due after twice the wait of
      the failure before it, or the cap if that is less. */
  lemma NextFailureWaits(cfg: Settings, run: seq<Event>, i: nat, j: nat, a: AuctionId, wait: int)
    requires Valid(cfg, run) && i < j < |run| && ActionAt(cfg, run, i, a).Fail? && ActionAt(cfg, run, j, a).Fail?
    requires forall k :: i < k < j ==> !ActionAt(cfg, run, k, a).Fail? && !ActionAt(cfg, run, k, a).Observe?
    requires Streak(cfg, run, j + 1, a) < cfg.maxErrors && DueAfter(cfg, run, i, a, wait)
    ensures DueAfter(cfg, run, j, a, if 2 * wait < cfg.backoffMax then 2 * wait else cfg.backoffMax)
  {
    hide *;
    FailureAddsOne(cfg, run, i, a);
    FailureAddsOne(cfg, run, j, a);
    FailureHasRow(cfg, run, i, a);
    StreakSame(cfg, run, i + 1, j, a);
    var n := Streak(cfg, run, i, a);
    BackoffDoubles(cfg, run, n);
    DueAfterBackoff(cfg, run, i, a, wait);
    DueAfterBackoff(cfg, run, j, a, BackoffFor(n + 2, cfg));
  }

  lemma FailureHasRow(cfg: Settings, run: seq<Event>, i: nat, a: AuctionId)
    requires Valid(cfg, run) && i < |run| && ActionAt(cfg, run, i, a).Fail?
    ensures LastPollAt(cfg, run, i + 1, a).Some?
  {
    SliceStep(cfg, run, i, a);
  }

  lemma StreakWaits(cfg: Settings, run: seq<Event>, k: nat, a: AuctionId)
    requires Valid(cfg, run) && k < |run| && LastPollAt(cfg, run, k, a).Some?
    requires !ActionAt(cfg, run, k, a).Fail? && !ActionAt(cfg, run, k, a).Observe?
    ensures Streak(cfg, run, k + 1, a) == Streak(cfg, run, k, a)
  {
    SliceStep(cfg, run, k, a);
  }

  lemma {:induction false} StreakSame(cfg: Settings, run: seq<Event>, i: nat, j: nat, a: AuctionId)
    requires Valid(cfg, run) && i <= j <= |run| && LastPollAt(cfg, run, i, a).Some?
    requires forall k :: i <= k < j ==> !ActionAt(cfg, run, k, a).Fail? && !ActionAt(cfg, run, k, a).Observe?
    ensures Streak(cfg, run, j, a) == Streak(cfg, run, i, a)
    decreases j
  {
    hide *;
    if i < j {
      StreakSame(cfg, run, i, j - 1, a);
      RowsStay(cfg, run, i, j - 1, a);
      StreakWaits(cfg, run, j - 1, a);
    }
  }

  /** The row keeps the first 1000 characters of what the last failed or stopping poll reported. */
  lemma FailureIsNoted(cfg: Settings, run: seq<Event>, i: nat, a: AuctionId, message: string)
    requires Valid(cfg, run) && i < |run|
    requires
      var action := ActionAt(cfg, run, i, a);
      (action.Fail? || action.Halt?) && action.message == message
    ensures
      var row := SliceAt(cfg, run, i + 1, a).row;
      row.Some? && row.value.lastError == Some(if |message| <= 1000 then message else message[..1000])
  {
    SliceStep(cfg, run, i, a);
  }

  /** A successful poll clears the error and its counter. */
  lemma SuccessClearsError(cfg: Settings, run: seq<Event>, i: nat, a: AuctionId)
    requires Valid(cfg, run) && i < |run| && ActionAt(cfg, run, i, a).Observe?
    ensures
      var row := SliceAt(cfg, run, i + 1, a).row;
      row.Some? && row.value.lastError == None && row.value.consecutiveErrors == 0
  {
    SliceStep(cfg, run, i, a);
  }

  /** A restart does not clear the counter: once errors stopped an auction, and as long as no poll succeeds,
      every further failure stops it again at once, however often users restart it. */
  lemma {:induction false} NoFreshStartAfterGivingUp(cfg: Settings, run: seq<Event>, i: nat, j: nat, a: AuctionId)
    requires Valid(cfg, run) && i < j < |run|
    requires ActionAt(cfg, run, i, a).Fail? && !IsActive(SliceAt(cfg, run, i + 1, a))
    requires forall k :: i < k < j ==> !ActionAt(cfg, run, k, a).Observe?
    requires ActionAt(cfg, run, j, a).Fail?
    ensures !IsActive(SliceAt(cfg, run, j + 1, a))
  {
    FailureStopsIff(cfg, run, i, a);
    StreakGrows(cfg, run, i + 1, j, a);
    FailureStopsIff(cfg, run, j, a);
  }

  lemma StreakKeeps(cfg: Settings, run: seq<Event>, k: nat, a: AuctionId)
    requires Valid(cfg, run) && k < |run| && LastPollAt(cfg, run, k, a).Some? && !ActionAt(cfg, run, k, a).Observe?
    ensures Streak(cfg, run, k, a) <= Streak(cfg, run, k + 1, a)
  {
    SliceStep(cfg, run, k, a);
  }

  lemma StreakGrows(cfg: Settings, run: seq<Event>, i: nat, j: nat, a: AuctionId)
    requires Valid(cfg, run) && i <= j <= |run| && LastPollAt(cfg, run, i, a).Some?
    requires forall k :: i <= k < j ==> !ActionAt(cfg, run, k, a).Observe?
    ensures Streak(cfg, run, i, a) <= Streak(cfg, run, j, a)
  {
    hide Streak, ActionAt, LastPollAt;
    var streaks: seq<int> := seq(j + 1, k requires 0 <= k <= j => Streak(cfg, run, k, a));
    forall k | i <= k < j
      ensures streaks[k] <= streaks[k + 1]
    {
      RowsStay(cfg, run, i, k, a);
      StreakKeeps(cfg, run, k, a);
    }
    Series.Grows(streaks, i, j);
  }

  // ---------------------------------------------------------------- how long giving up takes

  /** Below the limit the gate is the last failure plus the backoff for its place in the streak; the waits up to it
      add up from the first failure, which happened at `first`. */
  predicate AddsUp(cfg: Settings, g: Gate, streak: nat, first: Time) {
    0 < streak < cfg.maxErrors ==> first + TotalWait(streak, cfg.backoffBase, cfg.backoffMax) <= g.due
  }

  lemma ActAddsUp(cfg: Settings, g: Gate, x: Slice, streak: nat, action: Action, byTick: bool, now: Time, first: Time)
    requires Counts(x, streak) && x.row.Some? && 0 < streak && AddsUp(cfg, g, streak, first)
    requires action.Fail? ==> g.due <= now
    ensures AddsUp(cfg, GateBy(cfg, g, x, action, byTick, now), StreakBy(streak, action), first)
  {
  }

  ghost predicate AddsUpAt(cfg: Settings, run: seq<Event>, m: nat, a: AuctionId, first: Time)
    requires m <= |run|
  {
    AddsUp(cfg, GateAt(cfg, run, m, a), Streak(cfg, run, m, a), first)
  }

  ghost predicate InStreak(cfg: Settings, run: seq<Event>, m: nat, a: AuctionId)
    requires m <= |run|
  {
    Streak(cfg, run, m, a) > 0
  }

  /** Step `k` is the first failure of a streak that lasts at least up to step `i`. */
  ghost predicate StreakFrom(cfg: Settings, run: seq<Event>, k: nat, i: nat, a: AuctionId)
    requires k < |run| && i <= |run|
  {
    && ActionAt(cfg, run, k, a).Fail? && Streak(cfg, run, k, a) == 0
    && forall m :: k < m <= i ==> InStreak(cfg, run, m, a)
  }

  lemma FirstAddsUp(cfg: Settings, run: seq<Event>, k: nat, i: nat, a: AuctionId)
    requires Valid(cfg, run) && k < |run| && i <= |run| && StreakFrom(cfg, run, k, i, a)
    ensures AddsUpAt(cfg, run, k + 1, a, run[k].now)
  {
    SliceStep(cfg, run, k, a);
    CounterIsStreak(cfg, run, k, a);
    var x, action := SliceAt(cfg, run, k, a), ActionAt(cfg, run, k, a);
    assert GateAt(cfg, run, k + 1, a)
        == GateBy(cfg, GateAt(cfg, run, k, a), x, action, run[k].Tick?, run[k].now);
    assert TotalWait(1, cfg.backoffBase, cfg.backoffMax) == BackoffFor(1, cfg);
  }

  lemma NextAddsUp(cfg: Settings, run: seq<Event>, k: nat, m: nat, n: nat, a: AuctionId)
    requires Valid(cfg, run) && k < m < n <= |run| && PollsFollowTicks(cfg, run, k + 1, n, a)
    requires StreakFrom(cfg, run, k, n - 1, a) && AddsUpAt(cfg, run, m, a, run[k].now)
    ensures AddsUpAt(cfg, run, m + 1, a, run[k].now)
  {
    SliceStep(cfg, run, k, a);
    assert InStreak(cfg, run, m, a);
    assert forall l :: k + 1 <= l < m + 1 ==> FollowsAt(cfg, run, l, a);
    NoPollIsEarly(cfg, run, k, m, a);
    CounterIsStreak(cfg, run, m, a);
    RowsStay(cfg, run, k, m, a);
    ActAddsUp(cfg, GateAt(cfg, run, m, a), SliceAt(cfg, run, m, a), Streak(cfg, run, m, a), ActionAt(cfg, run, m, a),
              run[m].Tick?, run[m].now, run[k].now);
  }

  lemma {:induction false} WaitsAddUp(cfg: Settings, run: seq<Event>, k: nat, m: nat, n: nat, a: AuctionId)
    requires Valid(cfg, run) && k < m <= n <= |run| && PollsFollowTicks(cfg, run, k + 1, n, a)
    requires StreakFrom(cfg, run, k, n - 1, a)
    ensures AddsUpAt(cfg, run, m, a, run[k].now)
  {
    hide *;
    FirstAddsUp(cfg, run, k, n - 1, a);
    if k + 1 < m {
      WaitsAddUp(cfg, run, k, m - 1, n, a);
      NextAddsUp(cfg, run, k, m - 1, n, a);
    }
  }

  lemma LimitStops(cfg: Settings, run: seq<Event>, i: nat, a: AuctionId)
    requires Valid(cfg, run) && i < |run| && ActionAt(cfg, run, i, a).Fail?
    requires Streak(cfg, run, i + 1, a) == cfg.maxErrors
    ensures !IsActive(SliceAt(cfg, run, i + 1, a))
  {
    hide Streak, SliceAt, ActionAt, Valid;
    FailureStopsIff(cfg, run, i, a);
  }

  lemma StreakGoesOnAt(cfg: Settings, run: seq<Event>, k: nat, m: nat, i: nat, a: AuctionId)
    requires k < m <= i <= |run| && StreakFrom(cfg, run, k, i, a)
    ensures Streak(cfg, run, m, a) > 0 && ActionAt(cfg, run, k, a).Fail?
  {
    hide Streak, ActionAt;
    assert InStreak(cfg, run, m, a);
  }

  lemma WaitsHavePassed(cfg: Settings, run: seq<Event>, k: nat, i: nat, a: AuctionId)
    requires Valid(cfg, run) && k < i < |run| && PollsFollowTicks(cfg, run, k + 1, i + 1, a)
    requires StreakFrom(cfg, run, k, i, a) && ActionAt(cfg, run, i, a).Fail?
    requires Streak(cfg, run, i, a) < cfg.maxErrors
    ensures run[k].now + TotalWait(Streak(cfg, run, i, a), cfg.backoffBase, cfg.backoffMax) <= run[i].now
  {
    hide Streak, ActionAt, Valid, GateAt, PollsFollowTicks, StreakFrom, TotalWait;
    StreakGoesOnAt(cfg, run, k, i, i, a);
    WaitsAddUp(cfg, run, k, i, i + 1, a);
    NoPollIsEarly(cfg, run, k, i, a);
  }

  /** Giving up takes its time: from the first failure of a streak, at step `k`, to each later one up to the
      `maxErrors`-th, all the backoffs between them have passed, as long as polls follow ticks from `k` on. So the
      failure that stops an auction comes no sooner than the first `maxErrors - 1` backoffs. */
  lemma GivesUpNoSooner(cfg: Settings, run: seq<Event>, k: nat, i: nat, a: AuctionId)
    requires Valid(cfg, run) && k <= i < |run| && PollsFollowTicks(cfg, run, k + 1, i + 1, a)
    requires StreakFrom(cfg, run, k, i, a) && ActionAt(cfg, run, i, a).Fail?
    requires Streak(cfg, run, i + 1, a) <= cfg.maxErrors
    ensures run[k].now + TotalWait(Streak(cfg, run, i + 1, a) - 1, cfg.backoffBase, cfg.backoffMax) <= run[i].now
    ensures Streak(cfg, run, i + 1, a) == cfg.maxErrors ==> !IsActive(SliceAt(cfg, run, i + 1, a))
  {
    hide Streak, SliceAt, ActionAt, Valid, PollsFollowTicks;
    FailureAddsOne(cfg, run, i, a);
    if Streak(cfg, run, i + 1, a) == cfg.maxErrors {
      LimitStops(cfg, run, i, a);
    }
    if k < i {
      hide StreakFrom;
      WaitsHavePassed(cfg, run, k, i, a);
    }
  }

  /** Every streak has a first failure. */
  lemma {:induction false} StreakBegan(cfg: Settings, run: seq<Event>, i: nat, a: AuctionId) returns (k: nat)
    requires i <= |run| && Streak(cfg, run, i, a) > 0
    ensures k < i && StreakFrom(cfg, run, k, i, a)
  {
    hide *;
    StreakNotEmpty(cfg, run, i, a);
    if Streak(cfg, run, i - 1, a) == 0 {
      k := i - 1;
    } else {
      k := StreakBegan(cfg, run, i - 1, a);
      StreakGoesOn(cfg, run, k, i, a);
    }
  }

  lemma StreakNotEmpty(cfg: Settings, run: seq<Event>, i: nat, a: AuctionId)
    requires i <= |run| && Streak(cfg, run, i, a) > 0
    ensures i > 0 && (Streak(cfg, run, i - 1, a) == 0 ==> StreakFrom(cfg, run, i - 1, i, a))
  {
  }

  lemma StreakGoesOn(cfg: Settings, run: seq<Event>, k: nat, i: nat, a: AuctionId)
    requires k < i - 1 && i <= |run| && StreakFrom(cfg, run, k, i - 1, a) && Streak(cfg, run, i, a) > 0
    ensures StreakFrom(cfg, run, k, i, a)
  {
    hide Streak, ActionAt;
  }
}
