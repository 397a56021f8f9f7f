/** Polls that follow ticks: as long as every poll was enqueued by a tick after the poll before it, no poll comes
    before its `next_poll_at` (app/scheduler/scheduler.py:66-80, app/services/monitoring_service.py:108-149). */
module Pacing {
  import opened AuctionTypes
  import opened Polling
  import opened Tables
  import opened Monitoring
  import opened Runs
  import opened History
  import Ticking

  /** What the last poll of an auction asked for: the instant before which the next is not due, and the first tick
      that has picked the auction since. */
  datatype Gate = Gate(due: Time, picked: Option<Time>)

  predicate GivesUp(cfg: Settings, x: Slice) {
    x.row.Some? && x.row.value.consecutiveErrors + 1 >= cfg.maxErrors
  }

  function GateBy(cfg: Settings, g: Gate, x: Slice, action: Action, byTick: bool, now: Time): Gate {
    match action
    case Observe(s) => Gate(NextPollAt(s, cfg.intervals), None)
    case Fail(_, _) =>
      Gate(if x.row.None? || GivesUp(cfg, x) then now else now + BackoffFor(x.row.value.consecutiveErrors + 1, cfg),
           None)
    case Reschedule(_) => if byTick && g.picked.None? then g.(picked := Some(now)) else g
    case _ => g
  }

  ghost function GateAt(cfg: Settings, run: seq<Event>, i: nat, a: AuctionId): Gate
    requires i <= |run|
  {
    if i == 0 then Gate(0, None)
    else GateBy(cfg, GateAt(cfg, run, i - 1, a), SliceAt(cfg, run, i - 1, a), ActionAt(cfg, run, i - 1, a),
                run[i - 1].Tick?, run[i - 1].now)
  }

  /** A poll comes after a tick that picked the auction since the poll before it, and observes the page after that
      tick; a user's removal does not bring the next poll forward. */
  predicate Follows(g: Gate, action: Action, byTick: bool) {
    && (action.Fail? || action.Halt? || action.Observe? ==> g.picked.Some?)
    && (action.Observe? ==> g.picked.value <= action.state.observedAt)
    && (action.Reschedule? ==> byTick || g.due <= action.next)
  }

  ghost predicate FollowsAt(cfg: Settings, run: seq<Event>, k: nat, a: AuctionId)
    requires k < |run|
  {
    Follows(GateAt(cfg, run, k, a), ActionAt(cfg, run, k, a), run[k].Tick?)
  }

  /** From step `i` up to step `n` polls follow ticks. */
  ghost predicate PollsFollowTicks(cfg: Settings, run: seq<Event>, i: nat, n: nat, a: AuctionId)
    requires n <= |run|
  {
    forall k :: i <= k < n ==> FollowsAt(cfg, run, k, a)
  }

  /** A removal that leaves no watcher never brings the next poll of a streak forward if the grace period is at
      least as long as the backoff. */
  lemma GraceCoversBackoff(cfg: Settings, db: Db, e: Event, a: AuctionId, failed: Time, errors: int)
    requires e.RemoveWatch? && ActionOn(cfg, db, e, a).Reschedule? && failed <= e.now
    requires BackoffFor(errors, cfg) <= cfg.grace
    ensures failed + BackoffFor(errors, cfg) <= ActionOn(cfg, db, e, a).next
  {
  }

  // ---------------------------------------------------------------- the gate holds

  /** The row is not due before the gate's instant, which has passed once the row is stopped or picked. */
  predicate Holds(x: Slice, g: Gate, now: Time) {
    && x.row.Some?
    && (var r := x.row.value;
        && (r.monitoringActive && r.nextPollAt.Some? ==> g.due <= r.nextPollAt.value)
        && (!r.monitoringActive && !r.isClosed ==> g.due <= now))
    && (g.picked.Some? ==> g.due <= g.picked.value <= now)
  }

  /** What an action's event tells about it. */
  predicate Timely(cfg: Settings, x: Slice, action: Action, byTick: bool, now: Time) {
    match action
    case Fail(_, at) => at == now
    case Resume(at) => at == now
    case Reschedule(next) => byTick ==> IsDueNow(x, now) && next == now + cfg.lockTtl
    case Abandon => IsDueNow(x, now)
    case _ => true
  }

  predicate IsDueNow(x: Slice, now: Time) {
    IsActive(x) && x.row.value.nextPollAt.Some? && x.row.value.nextPollAt.value <= now
  }

  lemma EventIsTimely(cfg: Settings, db: Db, e: Event, a: AuctionId)
    requires Enabled(cfg, db, e)
    ensures Timely(cfg, SliceOf(db, a), ActionOn(cfg, db, e, a), e.Tick?, e.now)
  {
    if e.Tick? && a in e.due {
      assert Ticking.IsDue(db, a, e.now);
    }
  }

  lemma TimelyAt(cfg: Settings, run: seq<Event>, k: nat, a: AuctionId)
    requires Valid(cfg, run) && k < |run|
    ensures Timely(cfg, SliceAt(cfg, run, k, a), ActionAt(cfg, run, k, a), run[k].Tick?, run[k].now)
  {
    StepAt(cfg, run, k);
    EventIsTimely(cfg, After(cfg, run[..k]), run[k], a);
  }

  lemma ActHolds(cfg: Settings, x: Slice, g: Gate, action: Action, byTick: bool, clock: Time, now: Time, next: int)
    requires cfg.Valid() && SliceInv(x, next, now) && Holds(x, g, clock) && clock <= now
    requires Sensible(x, action, now) && Timely(cfg, x, action, byTick, now) && Follows(g, action, byTick)
    ensures Holds(Act(cfg, x, action, next), GateBy(cfg, g, x, action, byTick, now), now)
    ensures action.Fail? ==> g.due <= now
    ensures action.Observe? ==> g.due <= action.state.observedAt
  {
    if action.Fail? || action.Observe? {
      PollHolds(cfg, x, g, action, byTick, now, next);
    }
  }

  /** A poll sets the gate anew, whatever came before. */
  lemma PollHolds(cfg: Settings, x: Slice, g: Gate, action: Action, byTick: bool, now: Time, next: int)
    requires Sensible(x, action, now) && Timely(cfg, x, action, byTick, now)
    requires SliceInv(x, next, now) && (action.Fail? || action.Observe?)
    ensures Holds(Act(cfg, x, action, next), GateBy(cfg, g, x, action, byTick, now), now)
  {
    if action.Observe? {
      ObservationIsRecorded(x.row.value, x.snapshots, action.state, cfg.intervals);
    }
  }

  ghost predicate HoldsAfter(cfg: Settings, run: seq<Event>, k: nat, a: AuctionId)
    requires k < |run|
  {
    Holds(SliceAt(cfg, run, k + 1, a), GateAt(cfg, run, k + 1, a), run[k].now)
  }

  lemma PollHoldsAfter(cfg: Settings, run: seq<Event>, k: nat, a: AuctionId)
    requires Valid(cfg, run) && k < |run| && (ActionAt(cfg, run, k, a).Fail? || ActionAt(cfg, run, k, a).Observe?)
    ensures HoldsAfter(cfg, run, k, a)
  {
    SliceStep(cfg, run, k, a);
    TimelyAt(cfg, run, k, a);
    PollHolds(cfg, SliceAt(cfg, run, k, a), GateAt(cfg, run, k, a), ActionAt(cfg, run, k, a), run[k].Tick?, run[k].now,
              After(cfg, run[..k]).nextSnapshot);
  }

  lemma StepHoldsAfter(cfg: Settings, run: seq<Event>, k: nat, a: AuctionId)
    requires Valid(cfg, run) && 0 < k < |run| && HoldsAfter(cfg, run, k - 1, a) && FollowsAt(cfg, run, k, a)
    ensures HoldsAfter(cfg, run, k, a)
    ensures ActionAt(cfg, run, k, a).Fail? ==> GateAt(cfg, run, k, a).due <= run[k].now
    ensures ActionAt(cfg, run, k, a).Observe? ==>
      GateAt(cfg, run, k, a).due <= ActionAt(cfg, run, k, a).state.observedAt
  {
    SliceStep(cfg, run, k, a);
    TimelyAt(cfg, run, k, a);
    ClockAt(cfg, run, k);
    ActHolds(cfg, SliceAt(cfg, run, k, a), GateAt(cfg, run, k, a), ActionAt(cfg, run, k, a), run[k].Tick?,
             run[k - 1].now, run[k].now, After(cfg, run[..k]).nextSnapshot);
  }

  lemma HoldsOn(cfg: Settings, run: seq<Event>, i: nat, n: nat, a: AuctionId, k: nat)
    requires Valid(cfg, run) && n <= |run| && PollsFollowTicks(cfg, run, i + 1, n, a) && i <= k < n - 1
    ensures HoldsAfter(cfg, run, k, a) ==> HoldsAfter(cfg, run, k + 1, a)
  {
    assert FollowsAt(cfg, run, k + 1, a);
    if HoldsAfter(cfg, run, k, a) {
      StepHoldsAfter(cfg, run, k + 1, a);
    }
  }

  lemma {:induction false} HoldsFrom(cfg: Settings, run: seq<Event>, i: nat, n: nat, a: AuctionId, k: nat)
    requires Valid(cfg, run) && n <= |run| && PollsFollowTicks(cfg, run, i + 1, n, a) && i <= k < n
    requires HoldsAfter(cfg, run, i, a)
    ensures HoldsAfter(cfg, run, k, a)
  {
    hide HoldsAfter, FollowsAt;
    if i < k {
      HoldsFrom(cfg, run, i, n, a, k - 1);
      HoldsOn(cfg, run, i, n, a, k - 1);
    }
  }

  /** From a poll on, as long as polls follow ticks, the gate holds. */
  lemma GateHolds(cfg: Settings, run: seq<Event>, i: nat, n: nat, a: AuctionId)
    requires Valid(cfg, run) && i < n <= |run| && PollsFollowTicks(cfg, run, i + 1, n, a)
    requires ActionAt(cfg, run, i, a).Fail? || ActionAt(cfg, run, i, a).Observe?
    ensures HoldsAfter(cfg, run, n - 1, a)
  {
    PollHoldsAfter(cfg, run, i, a);
    HoldsFrom(cfg, run, i, n, a, n - 1);
  }

  /** No poll comes early: a later poll is not before the instant that the poll before it asked for. */
  lemma NoPollIsEarly(cfg: Settings, run: seq<Event>, i: nat, k: nat, a: AuctionId)
    requires Valid(cfg, run) && i < k < |run| && PollsFollowTicks(cfg, run, i + 1, k + 1, a)
    requires ActionAt(cfg, run, i, a).Fail? || ActionAt(cfg, run, i, a).Observe?
    ensures ActionAt(cfg, run, k, a).Fail? ==> GateAt(cfg, run, k, a).due <= run[k].now
    ensures ActionAt(cfg, run, k, a).Observe? ==>
      GateAt(cfg, run, k, a).due <= ActionAt(cfg, run, k, a).state.observedAt
  {
    assert forall m :: i + 1 <= m < k ==> FollowsAt(cfg, run, m, a);
    GateHolds(cfg, run, i, k, a);
    assert FollowsAt(cfg, run, k, a);
    StepHoldsAfter(cfg, run, k, a);
  }
}
