/** The promises of adaptive polling, kept by the whole system: timed notices are prompt and polls are few
    (app/domain/polling.py:36-48, app/services/monitoring_service.py:108-115). */
module Timeliness {
  import opened AuctionTypes
  import opened Backoff
  import opened Diff
  import opened Notifications
  import opened Polling
  import opened Tables
  import opened Runs
  import opened History
  import opened Pacing

  /** A poll that finds the auction open schedules the next one by the time left. */
  lemma ObservationSchedulesNext(cfg: Settings, run: seq<Event>, i: nat, a: AuctionId)
    requires Valid(cfg, run) && i < |run| && ActionAt(cfg, run, i, a).Observe?
    ensures
      var s := ActionAt(cfg, run, i, a).state;
      var row := SliceAt(cfg, run, i + 1, a).row;
      row.Some? && row.value.nextPollAt == if s.isClosed then None else Some(NextPollAt(s, cfg.intervals))
  {
    SliceStep(cfg, run, i, a);
  }

  /** After an observation of an open auction the row is due after the interval set for the time that is left: each
      bucket includes its upper end, the last one everything from 15 minutes before the end on, and an unknown end is
      treated like one to six hours. */
  lemma DueByTimeLeft(cfg: Settings, run: seq<Event>, i: nat, a: AuctionId, interval: int)
    requires Valid(cfg, run) && i < |run|
    requires ActionAt(cfg, run, i, a).Observe? && !ActionAt(cfg, run, i, a).state.isClosed
    requires
      var row := SliceAt(cfg, run, i + 1, a).row;
      row.Some? && row.value.nextPollAt == Some(ActionAt(cfg, run, i, a).state.observedAt + interval)
    ensures
      var s, iv := ActionAt(cfg, run, i, a).state, cfg.intervals;
      && (s.endTime.None? ==> interval == iv.from1hTo6h)
      && (s.endTime.Some? ==>
            var left := s.endTime.value - s.observedAt;
            && (24 * HOUR < left ==> interval == iv.gt24h)
            && (6 * HOUR < left <= 24 * HOUR ==> interval == iv.from6hTo24h)
            && (HOUR < left <= 6 * HOUR ==> interval == iv.from1hTo6h)
            && (30 * MINUTE < left <= HOUR ==> interval == iv.from30mTo60m)
            && (15 * MINUTE < left <= 30 * MINUTE ==> interval == iv.from15mTo30m)
            && (left <= 15 * MINUTE ==> interval == iv.lt15m))
  {
    ObservationSchedulesNext(cfg, run, i, a);
    hide SliceAt, ActionAt, Valid;
  }

  /** The step at which the `m`-th observation was made. */
  lemma {:induction false} StepOfObservation(cfg: Settings, run: seq<Event>, n: nat, a: AuctionId,
                                             seen: seq<AuctionState>, m: nat) returns (k: nat)
    requires n <= |run| && seen == Observations(cfg, run, n, a) && m < |seen|
    ensures k < n && ActionAt(cfg, run, k, a) == Observe(seen[m]) && Observations(cfg, run, k, a) == seen[..m]
  {
    var before := Observations(cfg, run, n - 1, a);
    if m < |before| {
      k := StepOfObservation(cfg, run, n - 1, a, before, m);
      assert seen[..m] == before[..m];
    } else {
      k := n - 1;
    }
  }

  lemma CrossingDecides(earlier: seq<AuctionState>, s: AuctionState, th: Thresholds, kind: Kind, end: Time)
    requires earlier != [] && kind.Timed() && s.endTime == Some(end)
    requires Crosses(end, th.For(kind), earlier[|earlier| - 1].observedAt, s.observedAt)
    ensures kind in SimpleKinds(earlier, s, th)
  {
    var p := earlier[|earlier| - 1];
    TimedDecidedIff(true, s, FlagsOf(Some(p), s, PRICE_CHANGE_THRESHOLD), p.observedAt, s.observedAt, th, kind);
  }

  lemma CrossingIsDecidedAt(cfg: Settings, run: seq<Event>, k: nat, a: AuctionId, earlier: seq<AuctionState>,
                            s: AuctionState, kind: Kind, end: Time)
    requires Valid(cfg, run) && k < |run| && HasBaseline(cfg, run, k, a) && kind.Timed()
    requires ActionAt(cfg, run, k, a) == Observe(s) && Observations(cfg, run, k, a) == earlier
    requires earlier != [] && s.endTime == Some(end)
    requires Crosses(end, cfg.thresholds.For(kind), earlier[|earlier| - 1].observedAt, s.observedAt)
    ensures DecidesAt(cfg, run, k, a, kind, end)
  {
    SnapshotLogRefinesHistory(cfg, run, k, a);
    CrossingDecides(earlier, s, cfg.thresholds, kind, end);
  }

  lemma NoticedInAll(all: seq<AuctionState>, m: nat, seen: seq<AuctionState>, x: nat, end: Time, threshold: int)
    requires m <= |all| && seen == all[m..] && NoticedAt(seen, x, end, threshold) && seen[x].endTime == Some(end)
    ensures NoticedAt(all, m + x, end, threshold) && all[m + x] == seen[x] && all[m + x].endTime == Some(end)
  {
    assert seen[x - 1] == all[m + x - 1];
  }

  // ---------------------------------------------------------------- how far apart polls are

  /** The gate is not before the instant that the last observation asked for. */
  ghost predicate GatedBy(cfg: Settings, run: seq<Event>, k: nat, a: AuctionId)
    requires k <= |run|
  {
    var seen := Observations(cfg, run, k, a);
    seen != [] && NextPollAt(seen[|seen| - 1], cfg.intervals) <= GateAt(cfg, run, k, a).due
  }

  predicate Gated(cfg: Settings, earlier: seq<AuctionState>, g: Gate) {
    earlier != [] && NextPollAt(earlier[|earlier| - 1], cfg.intervals) <= g.due
  }

  lemma ActGates(cfg: Settings, earlier: seq<AuctionState>, g: Gate, x: Slice, action: Action, byTick: bool, now: Time)
    requires cfg.Valid() && (Gated(cfg, earlier, g) || action.Observe?)
    requires action.Fail? ==> g.due <= now
    ensures Gated(cfg, Seeing(earlier, action), GateBy(cfg, g, x, action, byTick, now))
  {
    if action.Fail? && x.row.Some? {
      var errors := x.row.value.consecutiveErrors + 1;
      WaitGrowsToCap(errors, errors, cfg.backoffBase, cfg.backoffMax);
    }
  }

  lemma NotEarly(cfg: Settings, run: seq<Event>, i: nat, k: nat, n: nat, a: AuctionId)
    requires Valid(cfg, run) && i < k < n <= |run| && PollsFollowTicks(cfg, run, i + 1, n, a)
    requires ActionAt(cfg, run, i, a).Observe?
    ensures ActionAt(cfg, run, k, a).Fail? ==> GateAt(cfg, run, k, a).due <= run[k].now
    ensures ActionAt(cfg, run, k, a).Observe? ==>
      GateAt(cfg, run, k, a).due <= ActionAt(cfg, run, k, a).state.observedAt
  {
    hide Valid, GateAt, ActionAt, FollowsAt;
    assert forall l :: i + 1 <= l < k + 1 ==> FollowsAt(cfg, run, l, a);
    NoPollIsEarly(cfg, run, i, k, a);
  }

  lemma GateStep(cfg: Settings, run: seq<Event>, k: nat, a: AuctionId)
    requires k < |run|
    ensures Observations(cfg, run, k + 1, a) == Seeing(Observations(cfg, run, k, a), ActionAt(cfg, run, k, a))
    ensures GateAt(cfg, run, k + 1, a)
         == GateBy(cfg, GateAt(cfg, run, k, a), SliceAt(cfg, run, k, a), ActionAt(cfg, run, k, a), run[k].Tick?,
                   run[k].now)
  {
    hide SliceAt, ActionAt;
  }

  lemma GatedNext(cfg: Settings, run: seq<Event>, i: nat, k: nat, n: nat, a: AuctionId)
    requires Valid(cfg, run) && cfg.Valid() && i <= k < n <= |run| && PollsFollowTicks(cfg, run, i + 1, n, a)
    requires ActionAt(cfg, run, i, a).Observe? && (k == i || GatedBy(cfg, run, k, a))
    ensures GatedBy(cfg, run, k + 1, a)
  {
    hide Valid, Observations, GateAt, SliceAt, ActionAt, PollsFollowTicks, GateBy, Seeing, NextPollAt;
    if k > i {
      NotEarly(cfg, run, i, k, n, a);
    }
    GateStep(cfg, run, k, a);
    ActGates(cfg, Observations(cfg, run, k, a), GateAt(cfg, run, k, a), SliceAt(cfg, run, k, a),
             ActionAt(cfg, run, k, a), run[k].Tick?, run[k].now);
  }

  lemma {:induction false} GatedSince(cfg: Settings, run: seq<Event>, i: nat, k: nat, n: nat, a: AuctionId)
    requires Valid(cfg, run) && cfg.Valid() && i < k <= n <= |run| && PollsFollowTicks(cfg, run, i + 1, n, a)
    requires ActionAt(cfg, run, i, a).Observe?
    ensures GatedBy(cfg, run, k, a)
  {
    hide *;
    if i + 1 < k {
      GatedSince(cfg, run, i, k - 1, n, a);
    }
    GatedNext(cfg, run, i, k - 1, n, a);
  }

  /** Two successive observations from step `i` on are as far apart as the earlier one asked for. */
  lemma NextObservationIsPaced(cfg: Settings, run: seq<Event>, i: nat, k: nat, n: nat, a: AuctionId)
    requires Valid(cfg, run) && cfg.Valid() && i < k < n <= |run| && PollsFollowTicks(cfg, run, i + 1, n, a)
    requires ActionAt(cfg, run, i, a).Observe? && ActionAt(cfg, run, k, a).Observe?
    ensures
      var seen := Observations(cfg, run, k, a);
      seen != []
      && NextPollAt(seen[|seen| - 1], cfg.intervals) <= ActionAt(cfg, run, k, a).state.observedAt
  {
    hide Valid, Observations, GateAt, ActionAt, PollsFollowTicks, NextPollAt;
    GatedSince(cfg, run, i, k, n, a);
    NotEarly(cfg, run, i, k, n, a);
  }

  /** Adaptive pacing is kept by the system: while polls follow ticks, the observations from step `i` on come no
      sooner than the intervals allow. */
  lemma ObservationsArePaced(cfg: Settings, run: seq<Event>, i: nat, n: nat, a: AuctionId, x: nat)
    requires Valid(cfg, run) && cfg.Valid() && i < n <= |run| && PollsFollowTicks(cfg, run, i + 1, n, a)
    requires ActionAt(cfg, run, i, a).Observe?
    requires |Observations(cfg, run, i, a)| < x < |Observations(cfg, run, n, a)|
    ensures
      var seen := Observations(cfg, run, n, a);
      NextPollAt(seen[x - 1], cfg.intervals) <= seen[x].observedAt
  {
    hide *;
    var seen := Observations(cfg, run, n, a);
    var k := StepOfObservation(cfg, run, n, a, seen, x);
    if k <= i {
      ObservationsGrow(cfg, run, k, i, a);
    }
    NextObservationIsPaced(cfg, run, i, k, n, a);
  }

  lemma {:induction false} ObservationsGrow(cfg: Settings, run: seq<Event>, i: nat, j: nat, a: AuctionId)
    requires i <= j <= |run|
    ensures Observations(cfg, run, i, a) <= Observations(cfg, run, j, a)
    decreases j
  {
    if i < j {
      ObservationsGrow(cfg, run, i, j - 1, a);
    }
  }

  /** The observations from step `i` up to step `n`. */
  ghost function Since(cfg: Settings, run: seq<Event>, i: nat, n: nat, a: AuctionId): seq<AuctionState>
    requires i <= n <= |run|
  {
    var all, m := Observations(cfg, run, n, a), |Observations(cfg, run, i, a)|;
    if m <= |all| then all[m..] else []
  }

  lemma SinceStarts(cfg: Settings, run: seq<Event>, i: nat, n: nat, a: AuctionId)
    requires i < n <= |run| && ActionAt(cfg, run, i, a).Observe?
    ensures |Observations(cfg, run, i, a)| < |Observations(cfg, run, n, a)|
    ensures Since(cfg, run, i, n, a) != [] && Since(cfg, run, i, n, a)[0] == ActionAt(cfg, run, i, a).state
  {
    ObservationsGrow(cfg, run, i + 1, n, a);
  }

  lemma SuffixIsPaced(all: seq<AuctionState>, m: nat, end: Time)
    requires m <= |all| && forall s :: s in all[m..] ==> s.endTime == Some(end)
    requires forall x :: m < x < |all| ==> NextPollAt(all[x - 1], DEFAULT_INTERVALS) <= all[x].observedAt
    ensures Paced(all[m..], end)
  {
    var seen := all[m..];
    forall i | 0 < i < |seen|
      ensures NextPollAt(seen[i - 1], DEFAULT_INTERVALS) <= seen[i].observedAt
    {
      assert seen[i] == all[m + i] && seen[i - 1] == all[m + i - 1];
    }
  }

  lemma SinceIsPaced(cfg: Settings, run: seq<Event>, i: nat, n: nat, a: AuctionId, end: Time)
    requires Valid(cfg, run) && cfg.intervals == DEFAULT_INTERVALS && i < n <= |run|
    requires ActionAt(cfg, run, i, a).Observe? && PollsFollowTicks(cfg, run, i + 1, n, a)
    requires forall s :: s in Since(cfg, run, i, n, a) ==> s.endTime == Some(end)
    ensures Paced(Since(cfg, run, i, n, a), end)
  {
    var all, m := Observations(cfg, run, n, a), |Observations(cfg, run, i, a)|;
    SinceStarts(cfg, run, i, n, a);
    forall x | m < x < |all|
      ensures NextPollAt(all[x - 1], DEFAULT_INTERVALS) <= all[x].observedAt
    {
      ObservationsArePaced(cfg, run, i, n, a, x);
    }
    SuffixIsPaced(all, m, end);
  }

  // ---------------------------------------------------------------- how many polls

  /** With the default intervals, and as long as polls follow ticks, a run from the observation at step `i` on makes
      at most `ceil(max(0, u - 24h) / 6h) + 111` observations before a fixed end, `u` before which that one was. */
  lemma PollsAreFew(cfg: Settings, run: seq<Event>, i: nat, n: nat, a: AuctionId, end: Time)
    requires Valid(cfg, run) && cfg.intervals == DEFAULT_INTERVALS && i < n <= |run|
    requires ActionAt(cfg, run, i, a).Observe? && PollsFollowTicks(cfg, run, i + 1, n, a)
    requires forall s :: s in Since(cfg, run, i, n, a) ==> s.endTime == Some(end) && s.observedAt < end
    ensures Since(cfg, run, i, n, a) != []
    ensures |Since(cfg, run, i, n, a)|
         <= CeilDiv(Max(0, end - ActionAt(cfg, run, i, a).state.observedAt - 24 * HOUR), 6 * HOUR) + 111
  {
    SinceStarts(cfg, run, i, n, a);
    SinceIsPaced(cfg, run, i, n, a, end);
    PollBudget(Since(cfg, run, i, n, a), end);
  }

  // ---------------------------------------------------------------- how late notices are

  /** A crossing between two observations after step `i` is decided at the step of the later one. */
  lemma CrossingIsDecided(cfg: Settings, run: seq<Event>, i: nat, n: nat, a: AuctionId, seen: seq<AuctionState>,
                          m: nat, kind: Kind, end: Time)
    returns (k: nat)
    requires Valid(cfg, run) && i < n <= |run| && ActionAt(cfg, run, i, a).Observe? && Spared(cfg, run, i + 1, n, a)
    requires kind.Timed() && seen == Observations(cfg, run, n, a) && |Observations(cfg, run, i, a)| < m
    requires NoticedAt(seen, m, end, cfg.thresholds.For(kind)) && seen[m].endTime == Some(end)
    ensures i < k < n && DecidesAt(cfg, run, k, a, kind, end) && ActionAt(cfg, run, k, a).state == seen[m]
  {
    hide Observations, ActionAt, Valid, Spared, HasBaseline, DecidesAt;
    k := StepOfObservation(cfg, run, n, a, seen, m);
    if k <= i {
      ObservationsGrow(cfg, run, k, i, a);
    }
    BaselineNext(cfg, run, i, a);
    SparedBefore(cfg, run, i + 1, k, n, a);
    BaselineStays(cfg, run, i + 1, k, a);
    CrossingIsDecidedAt(cfg, run, k, a, seen[..m], seen[m], kind, end);
  }

  lemma NoticeIsAmong(cfg: Settings, run: seq<Event>, i: nat, n: nat, a: AuctionId, seen: seq<AuctionState>, x: nat,
                      kind: Kind, end: Time) returns (k: nat)
    requires Valid(cfg, run) && i < n <= |run| && ActionAt(cfg, run, i, a).Observe? && Spared(cfg, run, i + 1, n, a)
    requires kind.Timed() && seen == Since(cfg, run, i, n, a)
    requires NoticedAt(seen, x, end, cfg.thresholds.For(kind)) && seen[x].endTime == Some(end)
    ensures i < k < n && DecidesAt(cfg, run, k, a, kind, end) && ActionAt(cfg, run, k, a).state == seen[x]
  {
    var all, m := Observations(cfg, run, n, a), |Observations(cfg, run, i, a)|;
    SinceStarts(cfg, run, i, n, a);
    NoticedInAll(all, m, seen, x, end, cfg.thresholds.For(kind));
    k := CrossingIsDecided(cfg, run, i, n, a, all, m + x, kind, end);
  }

  /** With any settings, as long as observations come at most `delay` late and no purge removes the auction's latest
      snapshot, a run from the observation at step `i` on, which shows a fixed end and goes past the moment of a notice,
      decides it less than the overshoot of the intervals and the delay after that moment. Polls may come early, from
      jobs left over in the queue, and fail, and the delay is any. */
  lemma NoticeIsOnTime(cfg: Settings, run: seq<Event>, i: nat, n: nat, a: AuctionId, kind: Kind, end: Time, delay: int)
    returns (k: nat)
    requires Valid(cfg, run) && i < n <= |run| && kind.Timed() && Spared(cfg, run, i + 1, n, a)
    requires ActionAt(cfg, run, i, a).Observe?
    requires
      var seen := Since(cfg, run, i, n, a);
      var moment := end - cfg.thresholds.For(kind);
      && (forall s :: s in seen ==> s.endTime == Some(end)) && Prompt(seen, cfg.intervals, delay)
      && seen != [] && seen[0].observedAt < moment <= seen[|seen| - 1].observedAt
    ensures i < k < n && DecidesAt(cfg, run, k, a, kind, end)
    ensures
      var threshold := cfg.thresholds.For(kind);
      end - threshold <= ActionAt(cfg, run, k, a).state.observedAt
        < end - threshold + Overshoot(cfg.intervals, threshold) + delay
  {
    hide Valid, Spared, Overshoot, Since, Prompt, DecidesAt, ActionAt;
    var seen := Since(cfg, run, i, n, a);
    var x := NoticeIsPrompt(seen, end, cfg.intervals, delay, cfg.thresholds.For(kind), 0);
    k := NoticeIsAmong(cfg, run, i, n, a, seen, x, kind, end);
  }
}
