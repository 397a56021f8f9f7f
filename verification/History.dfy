/** What whole runs decide: the change-only snapshot log behaves like a complete history of observations, and
    timed notifications are decided once. */
module History {
  import opened AuctionTypes
  import opened Diff
  import opened Notifications
  import opened Tables
  import opened Monitoring
  import opened Runs
  import Series

  ghost function ActionAt(cfg: Settings, run: seq<Event>, i: nat, a: AuctionId): Action
    requires i < |run|
  {
    ActionOn(cfg, After(cfg, run[..i]), run[i], a)
  }

  ghost function SliceAt(cfg: Settings, run: seq<Event>, i: nat, a: AuctionId): Slice
    requires i <= |run|
  {
    SliceOf(After(cfg, run[..i]), a)
  }

  /** What an observation decides, given what the tables say. */
  function KindsFor(x: Slice, s: AuctionState, th: Thresholds): seq<Kind>
    requires x.row.Some?
  {
    DecidedKinds(x.row.value, x.snapshots, s, th)
  }

  /** The kinds that step `i` decides for auction `a`. */
  ghost function KindsAt(cfg: Settings, run: seq<Event>, i: nat, a: AuctionId): seq<Kind>
    requires i < |run|
  {
    var action := ActionAt(cfg, run, i, a);
    if action.Observe? && SliceAt(cfg, run, i, a).row.Some?
    then KindsFor(SliceAt(cfg, run, i, a), action.state, cfg.thresholds) else []
  }

  /** One step of a run, as one auction sees it. */
  lemma SliceStep(cfg: Settings, run: seq<Event>, i: nat, a: AuctionId)
    requires Valid(cfg, run) && i < |run|
    ensures SliceAt(cfg, run, i + 1, a)
         == Act(cfg, SliceAt(cfg, run, i, a), ActionAt(cfg, run, i, a), After(cfg, run[..i]).nextSnapshot)
    ensures Sensible(SliceAt(cfg, run, i, a), ActionAt(cfg, run, i, a), run[i].now)
    ensures SliceInv(SliceAt(cfg, run, i, a), After(cfg, run[..i]).nextSnapshot, run[i].now)
  {
    StepAt(cfg, run, i);
    StepOn(cfg, After(cfg, run[..i]), run[i], a);
    ActionsAreSensible(cfg, After(cfg, run[..i]), run[i], a);
    ClockAt(cfg, run, i);
    InvAlways(cfg, run, i, a, run[i].now);
  }

  // ---------------------------------------------------------------- refinement of the complete history

  function Seeing(earlier: seq<AuctionState>, action: Action): seq<AuctionState> {
    if action.Observe? then earlier + [action.state] else earlier
  }

  /** Every observation of the auction before step `i`, whether or not a snapshot was stored. */
  ghost function Observations(cfg: Settings, run: seq<Event>, i: nat, a: AuctionId): seq<AuctionState>
    requires i <= |run|
  {
    if i == 0 then []
    else
      var action := ActionAt(cfg, run, i - 1, a);
      Seeing(Observations(cfg, run, i - 1, a), action)
  }

  /** The simple system: keep every observation and compare consecutive ones. */
  function SimpleKinds(earlier: seq<AuctionState>, s: AuctionState, th: Thresholds): seq<Kind> {
    if earlier == [] then []
    else PollKinds(earlier[|earlier| - 1], s, earlier[|earlier| - 1].observedAt, s.observedAt, th)
  }

  /** The tables hold what matters of the last observation. */
  ghost predicate Tracks(x: Slice, earlier: seq<AuctionState>) {
    && (earlier == [] ==> x.snapshots == [])
    && (earlier != [] ==>
          && x.row.Some?
          && x.row.value.lastPolledAt == Some(earlier[|earlier| - 1].observedAt)
          && ComparedInRow(x.row.value) == ComparedFields(earlier[|earlier| - 1]))
  }

  /** What a poll decides depends on the previous state through the compared fields only. */
  lemma KindsDependOnComparedFields(p: AuctionState, q: AuctionState, s: AuctionState, previousPoll: Time, now: Time,
                                    th: Thresholds)
    requires ComparedFields(p) == ComparedFields(q)
    ensures PollKinds(p, s, previousPoll, now, th) == PollKinds(q, s, previousPoll, now, th)
  {
    assert ChangeKinds(FlagsOf(Some(p), s, PRICE_CHANGE_THRESHOLD), s.isClosed)
        == ChangeKinds(FlagsOf(Some(q), s, PRICE_CHANGE_THRESHOLD), s.isClosed);
  }

  lemma TrackingDecides(x: Slice, earlier: seq<AuctionState>, s: AuctionState, th: Thresholds, next: int, clock: Time)
    requires SliceInv(x, next, clock) && x.row.Some? && Tracks(x, earlier)
    ensures KindsFor(x, s, th) == if x.snapshots == [] then [] else SimpleKinds(earlier, s, th)
  {
    PreviousIsLast(x.snapshots);
    if x.snapshots != [] {
      var stored := StateFromSnapshot(x.snapshots[|x.snapshots| - 1]);
      KindsDependOnComparedFields(stored, earlier[|earlier| - 1], s, PreviousPoll(x.row.value), s.observedAt, th);
    }
  }

  lemma ActTracks(cfg: Settings, x: Slice, earlier: seq<AuctionState>, action: Action, next: int, now: Time)
    requires SliceInv(x, next, now) && Sensible(x, action, now) && Tracks(x, earlier)
    ensures Tracks(Act(cfg, x, action, next), Seeing(earlier, action))
  {
    if action.Observe? {
      ObservationIsRecorded(x.row.value, x.snapshots, action.state, cfg.intervals);
      PreviousIsLast(x.snapshots);
    }
  }

  ghost predicate TracksAt(cfg: Settings, run: seq<Event>, i: nat, a: AuctionId)
    requires i <= |run|
  {
    Tracks(SliceAt(cfg, run, i, a), Observations(cfg, run, i, a))
  }

  lemma TrackingStep(cfg: Settings, run: seq<Event>, i: nat, a: AuctionId)
    requires Valid(cfg, run) && i < |run| && TracksAt(cfg, run, i, a)
    ensures TracksAt(cfg, run, i + 1, a)
  {
    SliceStep(cfg, run, i, a);
    ActTracks(cfg, SliceAt(cfg, run, i, a), Observations(cfg, run, i, a), ActionAt(cfg, run, i, a),
              After(cfg, run[..i]).nextSnapshot, run[i].now);
  }

  /** In every run, whatever is purged. */
  lemma TablesTrackObservations(cfg: Settings, run: seq<Event>, i: nat, a: AuctionId)
    requires Valid(cfg, run) && i <= |run|
    ensures TracksAt(cfg, run, i, a)
  {
    var holds := seq(i + 1, k requires 0 <= k <= i => TracksAt(cfg, run, k, a));
    forall k | 0 <= k < i && holds[k]
      ensures holds[k + 1]
    {
      TrackingStep(cfg, run, k, a);
    }
    Series.Persists(holds, 0, i);
  }

  // ---------------------------------------------------------------- what a purge may take away

  /** No purge of the auction's latest snapshot. */
  predicate Spares(x: Slice, action: Action) {
    action.Forget? && x.snapshots != [] ==> action.before <= x.snapshots[|x.snapshots| - 1].observedAt
  }

  ghost predicate SparesAt(cfg: Settings, run: seq<Event>, k: nat, a: AuctionId)
    requires k < |run|
  {
    Spares(SliceAt(cfg, run, k, a), ActionAt(cfg, run, k, a))
  }

  /** No purge from step `i` to step `n` removes the auction's latest snapshot. */
  ghost predicate Spared(cfg: Settings, run: seq<Event>, i: nat, n: nat, a: AuctionId)
    requires n <= |run|
  {
    forall k :: i <= k < n ==> SparesAt(cfg, run, k, a)
  }

  lemma SparedBefore(cfg: Settings, run: seq<Event>, i: nat, k: nat, n: nat, a: AuctionId)
    requires k <= n <= |run| && Spared(cfg, run, i, n, a)
    ensures Spared(cfg, run, i, k, a)
  {
  }

  /** The auction has a snapshot that a poll can compare with. */
  ghost predicate HasBaseline(cfg: Settings, run: seq<Event>, k: nat, a: AuctionId)
    requires k <= |run|
  {
    SliceAt(cfg, run, k, a).snapshots != []
  }

  lemma ForgetSparesIff(x: Slice, before: Time)
    requires Chronological(x.snapshots)
    ensures Kept(x.snapshots, before) != [] <==> x.snapshots != [] && Spares(x, Forget(before))
    ensures x.snapshots != [] && Spares(x, Forget(before)) ==>
      var kept := Kept(x.snapshots, before);
      kept != [] && kept[|kept| - 1] == x.snapshots[|x.snapshots| - 1]
  {
    var n := KeptIsSuffix(x.snapshots, before);
    NothingOldKept(x.snapshots, before);
    if n < |x.snapshots| {
      assert x.snapshots[n..][|x.snapshots| - n - 1] == x.snapshots[|x.snapshots| - 1];
    }
  }

  lemma ActKeepsBaselineIff(cfg: Settings, x: Slice, action: Action, next: int, now: Time)
    requires SliceInv(x, next, now) && Sensible(x, action, now)
    ensures Act(cfg, x, action, next).snapshots != [] <==>
      action.Observe? || (x.snapshots != [] && Spares(x, action))
  {
    if action.Forget? {
      ForgetSparesIff(x, action.before);
    }
    PreviousIsLast(x.snapshots);
  }

  lemma BaselineNext(cfg: Settings, run: seq<Event>, k: nat, a: AuctionId)
    requires Valid(cfg, run) && k < |run|
    ensures HasBaseline(cfg, run, k + 1, a) <==>
      ActionAt(cfg, run, k, a).Observe? || (HasBaseline(cfg, run, k, a) && SparesAt(cfg, run, k, a))
  {
    SliceStep(cfg, run, k, a);
    ActKeepsBaselineIff(cfg, SliceAt(cfg, run, k, a), ActionAt(cfg, run, k, a), After(cfg, run[..k]).nextSnapshot,
                        run[k].now);
  }

  /** Step `j` observes the auction, and no purge has removed its latest snapshot from then up to step `i`. */
  ghost predicate BaselineFrom(cfg: Settings, run: seq<Event>, j: nat, i: nat, a: AuctionId)
    requires j < i <= |run|
  {
    ActionAt(cfg, run, j, a).Observe? && Spared(cfg, run, j + 1, i, a)
  }

  /** A baseline exists if and only if the auction was observed and no purge has removed its latest snapshot since. */
  lemma {:induction false} BaselineIff(cfg: Settings, run: seq<Event>, i: nat, a: AuctionId)
    requires Valid(cfg, run) && i <= |run|
    ensures HasBaseline(cfg, run, i, a) <==> exists j :: 0 <= j < i && BaselineFrom(cfg, run, j, i, a)
  {
    hide *;
    if i == 0 {
      NothingAtFirst(cfg, run, a);
    } else {
      BaselineIff(cfg, run, i - 1, a);
      BaselineNext(cfg, run, i - 1, a);
      forall j: nat | j < i
        ensures BaselineFrom(cfg, run, j, i, a) <==>
          if j == i - 1 then ActionAt(cfg, run, j, a).Observe?
          else BaselineFrom(cfg, run, j, i - 1, a) && SparesAt(cfg, run, i - 1, a)
      {
        SparedLonger(cfg, run, j, i, a);
      }
      if ActionAt(cfg, run, i - 1, a).Observe? {
        assert BaselineFrom(cfg, run, i - 1, i, a);
      } else if HasBaseline(cfg, run, i, a) {
        var j :| 0 <= j < i - 1 && BaselineFrom(cfg, run, j, i - 1, a);
        assert BaselineFrom(cfg, run, j, i, a);
      }
    }
  }

  lemma NothingAtFirst(cfg: Settings, run: seq<Event>, a: AuctionId)
    ensures !HasBaseline(cfg, run, 0, a)
  {
  }

  lemma SparedLonger(cfg: Settings, run: seq<Event>, j: nat, i: nat, a: AuctionId)
    requires j < i <= |run|
    ensures BaselineFrom(cfg, run, j, i, a) <==>
      if j == i - 1 then ActionAt(cfg, run, j, a).Observe?
      else BaselineFrom(cfg, run, j, i - 1, a) && SparesAt(cfg, run, i - 1, a)
  {
    hide SparesAt, ActionAt;
  }

  lemma Baselines(cfg: Settings, run: seq<Event>, n: nat, a: AuctionId) returns (holds: seq<bool>)
    requires n <= |run|
    ensures |holds| == n + 1
    ensures forall k :: 0 <= k <= n ==> holds[k] == HasBaseline(cfg, run, k, a)
  {
    holds := seq(n + 1, k requires 0 <= k <= n => HasBaseline(cfg, run, k, a));
  }

  lemma BaselineStays(cfg: Settings, run: seq<Event>, i: nat, n: nat, a: AuctionId)
    requires Valid(cfg, run) && i <= n <= |run| && HasBaseline(cfg, run, i, a) && Spared(cfg, run, i, n, a)
    ensures HasBaseline(cfg, run, n, a)
  {
    hide HasBaseline, SparesAt;
    var holds := Baselines(cfg, run, n, a);
    forall k | i <= k < n
      ensures holds[k] ==> holds[k + 1]
    {
      BaselineNext(cfg, run, k, a);
      assert SparesAt(cfg, run, k, a);
    }
    Series.Persists(holds, i, n);
  }

  /** In a run whose purges spare the latest snapshot, an auction that was observed has a baseline. */
  lemma {:induction false} ObservedHasBaseline(cfg: Settings, run: seq<Event>, i: nat, a: AuctionId)
    requires Valid(cfg, run) && i <= |run| && Spared(cfg, run, 0, i, a) && Observations(cfg, run, i, a) != []
    ensures HasBaseline(cfg, run, i, a)
  {
    BaselineNext(cfg, run, i - 1, a);
    assert SparesAt(cfg, run, i - 1, a);
    if !ActionAt(cfg, run, i - 1, a).Observe? {
      ObservedHasBaseline(cfg, run, i - 1, a);
    }
  }

  /** In every run, with errors, stops, restarts, purges and other auctions in between, a poll that has a baseline
      decides exactly what the simple system decides that stores every observation, and one without decides
      nothing. Unless a purge removes the latest snapshot, that is what the simple system decides throughout. */
  lemma SnapshotLogRefinesHistory(cfg: Settings, run: seq<Event>, i: nat, a: AuctionId)
    requires Valid(cfg, run) && i < |run| && ActionAt(cfg, run, i, a).Observe?
    ensures
      var simple := SimpleKinds(Observations(cfg, run, i, a), ActionAt(cfg, run, i, a).state, cfg.thresholds);
      && KindsAt(cfg, run, i, a) == (if HasBaseline(cfg, run, i, a) then simple else [])
      && (Spared(cfg, run, 0, i, a) ==> KindsAt(cfg, run, i, a) == simple)
  {
    TablesTrackObservations(cfg, run, i, a);
    SliceStep(cfg, run, i, a);
    TrackingDecides(SliceAt(cfg, run, i, a), Observations(cfg, run, i, a), ActionAt(cfg, run, i, a).state,
                    cfg.thresholds, After(cfg, run[..i]).nextSnapshot, run[i].now);
    if Spared(cfg, run, 0, i, a) && Observations(cfg, run, i, a) != [] {
      ObservedHasBaseline(cfg, run, i, a);
    }
  }

  /** The compared fields of the auction row are those of the last observation; the title and the other fields
      need not be. */
  lemma RowShowsLastObservation(cfg: Settings, run: seq<Event>, i: nat, a: AuctionId)
    requires Valid(cfg, run) && i <= |run| && Observations(cfg, run, i, a) != []
    ensures
      var seen := Observations(cfg, run, i, a);
      var row := SliceAt(cfg, run, i, a).row;
      row.Some? && ComparedInRow(row.value) == ComparedFields(seen[|seen| - 1])
  {
    TablesTrackObservations(cfg, run, i, a);
  }

  // ---------------------------------------------------------------- timed notifications

  /** Step `i` decides the timed notification `kind` for an auction that is to end at `end`. */
  ghost predicate DecidesAt(cfg: Settings, run: seq<Event>, i: nat, a: AuctionId, kind: Kind, end: Time)
    requires i < |run|
  {
    var action := ActionAt(cfg, run, i, a);
    action.Observe? && action.state.endTime == Some(end) && kind in KindsAt(cfg, run, i, a)
  }

  /** The previous successful poll, or the creation of the row. */
  function LastPoll(x: Slice): Time
    requires x.row.Some?
  {
    PreviousPoll(x.row.value)
  }

  ghost function LastPollAt(cfg: Settings, run: seq<Event>, i: nat, a: AuctionId): Option<Time>
    requires i <= |run|
  {
    var row := SliceAt(cfg, run, i, a).row;
    if row.None? then None else Some(PreviousPoll(row.value))
  }

  lemma ActAdvances(cfg: Settings, x: Slice, action: Action, next: int, now: Time)
    requires Sensible(x, action, now) && x.row.Some?
    ensures Act(cfg, x, action, next).row.Some?
    ensures LastPoll(x) <= LastPoll(Act(cfg, x, action, next))
    ensures LastPoll(x) < LastPoll(Act(cfg, x, action, next)) ==>
      action.Observe? && LastPoll(Act(cfg, x, action, next)) == action.state.observedAt
  {
  }

  lemma StepAdvances(cfg: Settings, run: seq<Event>, i: nat, a: AuctionId)
    requires Valid(cfg, run) && i < |run|
    ensures
      var before, after := LastPollAt(cfg, run, i, a), LastPollAt(cfg, run, i + 1, a);
      before.Some? ==> after.Some? && before.value <= after.value
  {
    SliceStep(cfg, run, i, a);
    if LastPollAt(cfg, run, i, a).Some? {
      ActAdvances(cfg, SliceAt(cfg, run, i, a), ActionAt(cfg, run, i, a), After(cfg, run[..i]).nextSnapshot,
                  run[i].now);
    }
  }

  lemma RowsStay(cfg: Settings, run: seq<Event>, i: nat, j: nat, a: AuctionId)
    requires Valid(cfg, run) && i <= j <= |run| && LastPollAt(cfg, run, i, a).Some?
    ensures LastPollAt(cfg, run, j, a).Some?
  {
    var holds := seq(j + 1, k requires 0 <= k <= j => LastPollAt(cfg, run, k, a).Some?);
    forall k | i <= k < j && holds[k]
      ensures holds[k + 1]
    {
      StepAdvances(cfg, run, k, a);
    }
    Series.Persists(holds, i, j);
  }

  lemma LastPollAdvances(cfg: Settings, run: seq<Event>, i: nat, j: nat, a: AuctionId)
    requires Valid(cfg, run) && i <= j <= |run| && SliceAt(cfg, run, i, a).row.Some?
    ensures SliceAt(cfg, run, j, a).row.Some?
    ensures LastPoll(SliceAt(cfg, run, i, a)) <= LastPoll(SliceAt(cfg, run, j, a))
  {
    var times := LastPolls(cfg, run, i, j, a);
    Series.Grows(times, i, j);
    RowsStay(cfg, run, i, j, a);
  }

  /** The last polls at each step from `i` to `j`. */
  lemma LastPolls(cfg: Settings, run: seq<Event>, i: nat, j: nat, a: AuctionId) returns (times: seq<int>)
    requires Valid(cfg, run) && i <= j <= |run| && LastPollAt(cfg, run, i, a).Some?
    ensures |times| == j + 1
    ensures forall k :: i <= k <= j ==> LastPollAt(cfg, run, k, a) == Some(times[k])
    ensures forall k :: i <= k < j ==> times[k] <= times[k + 1]
  {
    forall k | i <= k <= j
      ensures LastPollAt(cfg, run, k, a).Some?
    {
      RowsStay(cfg, run, i, k, a);
    }
    times := seq(j + 1, k requires 0 <= k <= j =>
      if LastPollAt(cfg, run, k, a).Some? then LastPollAt(cfg, run, k, a).value else 0);
    forall k | i <= k < j
      ensures times[k] <= times[k + 1]
    {
      StepAdvances(cfg, run, k, a);
    }
  }

  /** A timed decision uses up its crossing: the last poll is not before it from then on. */
  lemma DecisionPassesCrossing(cfg: Settings, run: seq<Event>, i: nat, a: AuctionId, kind: Kind, end: Time)
    requires Valid(cfg, run) && i < |run| && kind.Timed() && DecidesAt(cfg, run, i, a, kind, end)
    ensures SliceAt(cfg, run, i, a).row.Some? && SliceAt(cfg, run, i + 1, a).row.Some?
    ensures LastPoll(SliceAt(cfg, run, i, a)) < end - cfg.thresholds.For(kind) <= LastPoll(SliceAt(cfg, run, i + 1, a))
  {
    SliceStep(cfg, run, i, a);
    var x, s := SliceAt(cfg, run, i, a), ActionAt(cfg, run, i, a).state;
    TimedDecidedIff(PreviousState(x.snapshots).Some?, s, PollFlags(x.snapshots, s), LastPoll(x), s.observedAt,
                    cfg.thresholds, kind);
  }

  /** At most once: over a whole run, whatever happens in between — errors, purges, the end moving away and back,
      users leaving and returning — one timed notification for one end is decided by at most one poll. */
  lemma TimedAtMostOnce(cfg: Settings, run: seq<Event>, i: nat, j: nat, a: AuctionId, kind: Kind, end: Time)
    requires Valid(cfg, run) && i < j < |run| && kind.Timed()
    ensures !(DecidesAt(cfg, run, i, a, kind, end) && DecidesAt(cfg, run, j, a, kind, end))
  {
    if DecidesAt(cfg, run, i, a, kind, end) && DecidesAt(cfg, run, j, a, kind, end) {
      DecisionPassesCrossing(cfg, run, i, a, kind, end);
      DecisionPassesCrossing(cfg, run, j, a, kind, end);
      LastPollAdvances(cfg, run, i + 1, j, a);
    }
  }

  /** Step `k` purges no latest snapshot of the auction, and if it observes the auction it shows `end`. */
  ghost predicate SteadyAt(cfg: Settings, run: seq<Event>, k: nat, a: AuctionId, end: Time)
    requires k < |run|
  {
    && SparesAt(cfg, run, k, a)
    && (ActionAt(cfg, run, k, a).Observe? ==> ActionAt(cfg, run, k, a).state.endTime == Some(end))
  }

  /** Between steps `i` and `n` the auction has a baseline, its latest snapshot is not purged, and every observation
      shows `end`. */
  ghost predicate SteadyEnd(cfg: Settings, run: seq<Event>, i: nat, n: nat, a: AuctionId, end: Time)
    requires i <= n <= |run|
  {
    HasBaseline(cfg, run, i, a) && forall k :: i <= k < n ==> SteadyAt(cfg, run, k, a, end)
  }

  lemma SteadyIsSpared(cfg: Settings, run: seq<Event>, i: nat, n: nat, a: AuctionId, end: Time)
    requires i <= n <= |run| && SteadyEnd(cfg, run, i, n, a, end)
    ensures Spared(cfg, run, i, n, a)
  {
    hide SparesAt, HasBaseline;
    forall k | i <= k < n
      ensures SparesAt(cfg, run, k, a)
    {
      assert SteadyAt(cfg, run, k, a, end);
    }
  }

  /** The poll that moves past a crossing decides it. */
  lemma MovingPastDecides(cfg: Settings, run: seq<Event>, k: nat, a: AuctionId, kind: Kind, end: Time)
    requires Valid(cfg, run) && k < |run| && kind.Timed() && SteadyAt(cfg, run, k, a, end)
    requires HasBaseline(cfg, run, k, a)
    requires LastPollAt(cfg, run, k, a).Some? && LastPollAt(cfg, run, k + 1, a).Some?
    requires LastPollAt(cfg, run, k, a).value < end - cfg.thresholds.For(kind) <= LastPollAt(cfg, run, k + 1, a).value
    ensures DecidesAt(cfg, run, k, a, kind, end)
  {
    SliceStep(cfg, run, k, a);
    var x, action := SliceAt(cfg, run, k, a), ActionAt(cfg, run, k, a);
    ActAdvances(cfg, x, action, After(cfg, run[..k]).nextSnapshot, run[k].now);
    PreviousIsLast(x.snapshots);
    var s := action.state;
    TimedDecidedIff(true, s, PollFlags(x.snapshots, s), LastPoll(x), s.observedAt, cfg.thresholds, kind);
  }

  /** At least once: every crossing that the successful polls move past is decided by one of them. */
  lemma TimedAtLeastOnce(cfg: Settings, run: seq<Event>, i: nat, n: nat, a: AuctionId, kind: Kind, end: Time)
    returns (k: nat)
    requires Valid(cfg, run) && i <= n <= |run| && kind.Timed() && SteadyEnd(cfg, run, i, n, a, end)
    requires SliceAt(cfg, run, i, a).row.Some? && SliceAt(cfg, run, n, a).row.Some?
    requires LastPoll(SliceAt(cfg, run, i, a)) < end - cfg.thresholds.For(kind) <= LastPoll(SliceAt(cfg, run, n, a))
    ensures i <= k < n && DecidesAt(cfg, run, k, a, kind, end)
  {
    var times := LastPolls(cfg, run, i, n, a);
    k := Series.StepAcross(times, i, n, end - cfg.thresholds.For(kind));
    assert LastPollAt(cfg, run, k, a) == Some(times[k]) && LastPollAt(cfg, run, k + 1, a) == Some(times[k + 1]);
    SteadyIsSpared(cfg, run, i, n, a, end);
    BaselineStays(cfg, run, i, k, a);
    assert SteadyAt(cfg, run, k, a, end);
    MovingPastDecides(cfg, run, k, a, kind, end);
  }

  /** Exactly once: while the end stays put, every crossing after the poll before step `i` and not after the last
      poll before step `n` is decided by exactly one poll in between. */
  lemma TimedExactlyOnce(cfg: Settings, run: seq<Event>, i: nat, n: nat, a: AuctionId, kind: Kind, end: Time)
    returns (k: nat)
    requires Valid(cfg, run) && i <= n <= |run| && kind.Timed() && SteadyEnd(cfg, run, i, n, a, end)
    requires SliceAt(cfg, run, i, a).row.Some? && SliceAt(cfg, run, n, a).row.Some?
    requires LastPoll(SliceAt(cfg, run, i, a)) < end - cfg.thresholds.For(kind) <= LastPoll(SliceAt(cfg, run, n, a))
    ensures i <= k < n && DecidesAt(cfg, run, k, a, kind, end)
    ensures forall m :: 0 <= m < |run| && m != k ==> !DecidesAt(cfg, run, m, a, kind, end)
  {
    k := TimedAtLeastOnce(cfg, run, i, n, a, kind, end);
    forall m: nat | m < |run| && m != k
      ensures !DecidesAt(cfg, run, m, a, kind, end)
    {
      if m < k {
        TimedAtMostOnce(cfg, run, m, k, a, kind, end);
      } else {
        TimedAtMostOnce(cfg, run, k, m, a, kind, end);
      }
    }
  }
}
