/** The columns of an auction row that polls do not compare: title, start time, quantity and store flag
    (app/services/monitoring_service.py:84-91, app/repositories/auctions.py:45-57). */
module Details {
  import opened AuctionTypes
  import opened Diff
  import opened Tables
  import opened Monitoring
  import opened Runs
  import opened History

  datatype Details =
    Details(title: Option<string>, startTime: Option<Time>, quantity: Option<int>, isStore: Option<bool>)

  function DetailsOf(s: AuctionState): Details { Details(s.title, s.startTime, s.quantity, s.isStore) }

  function DetailsInRow(r: Auction): Details { Details(r.title, r.startTime, r.quantity, r.isStore) }

  /** The last observation that differs from the one before it in a compared field, or the first one. */
  function LastChange(seen: seq<AuctionState>): (m: nat)
    requires seen != []
    ensures m < |seen|
  {
    var n := |seen| - 1;
    if n == 0 || ComparedFields(seen[n]) != ComparedFields(seen[n - 1]) then n else LastChange(seen[..n])
  }

  /** Comparing with what is stored stores the same observations as comparing with the one before. */
  lemma {:induction false} StoredIsLastChange(seen: seq<AuctionState>)
    requires seen != []
    ensures Stored(seen, PRICE_CHANGE_THRESHOLD) == Some(seen[LastChange(seen)])
  {
    var n := |seen| - 1;
    if n > 0 {
      StoredIsLastChange(seen[..n]);
      NoDrift(seen[..n], PRICE_CHANGE_THRESHOLD);
      ChangedIffFieldsDiffer(Stored(seen[..n], PRICE_CHANGE_THRESHOLD).value, seen[n]);
    }
  }

  /** The observation that is stored after `action`: one that finds no snapshot to compare with, or that differs in a
      compared field from the observation before it, replaces the one stored so far. */
  function StoredBy(stored: Option<AuctionState>, x: Slice, earlier: seq<AuctionState>, action: Action)
    : Option<AuctionState>
  {
    if action.Observe? && (x.snapshots == [] || earlier == []
                           || ComparedFields(earlier[|earlier| - 1]) != ComparedFields(action.state))
    then Some(action.state) else stored
  }

  ghost function LastStored(cfg: Settings, run: seq<Event>, i: nat, a: AuctionId): Option<AuctionState>
    requires i <= |run|
  {
    if i == 0 then None
    else StoredBy(LastStored(cfg, run, i - 1, a), SliceAt(cfg, run, i - 1, a), Observations(cfg, run, i - 1, a),
                  ActionAt(cfg, run, i - 1, a))
  }

  /** The tables hold the stored observation: the row its details, the latest snapshot, if there is one, the rest. */
  ghost predicate HoldsStored(x: Slice, earlier: seq<AuctionState>, stored: Option<AuctionState>) {
    && (stored.Some? <==> earlier != [])
    && (stored.Some? ==>
          && x.row.Some? && DetailsInRow(x.row.value) == DetailsOf(stored.value)
          && (x.snapshots != [] ==>
                var last := x.snapshots[|x.snapshots| - 1];
                last == SnapshotOf(last.id, stored.value)))
  }

  lemma ActHoldsStored(cfg: Settings, x: Slice, earlier: seq<AuctionState>, stored: Option<AuctionState>,
                       action: Action, next: int, now: Time)
    requires SliceInv(x, next, now) && Sensible(x, action, now) && Tracks(x, earlier) && HoldsStored(x, earlier, stored)
    ensures HoldsStored(Act(cfg, x, action, next), Seeing(earlier, action), StoredBy(stored, x, earlier, action))
  {
    if action.Observe? {
      PreviousIsLast(x.snapshots);
      if x.snapshots != [] {
        ChangedIffFieldsDiffer(StateFromSnapshot(x.snapshots[|x.snapshots| - 1]), action.state);
      }
    } else if action.Forget? {
      ForgetSparesIff(x, action.before);
    }
  }

  ghost predicate HoldsStoredAt(cfg: Settings, run: seq<Event>, i: nat, a: AuctionId)
    requires i <= |run|
  {
    HoldsStored(SliceAt(cfg, run, i, a), Observations(cfg, run, i, a), LastStored(cfg, run, i, a))
  }

  lemma HoldsStoredNext(cfg: Settings, run: seq<Event>, i: nat, a: AuctionId)
    requires Valid(cfg, run) && i < |run| && HoldsStoredAt(cfg, run, i, a)
    ensures HoldsStoredAt(cfg, run, i + 1, a)
  {
    hide SliceAt, ActionAt, Valid, SliceInv, Sensible, Act, HoldsStored, Tracks;
    SliceStep(cfg, run, i, a);
    TablesTrackObservations(cfg, run, i, a);
    ActHoldsStored(cfg, SliceAt(cfg, run, i, a), Observations(cfg, run, i, a), LastStored(cfg, run, i, a),
                   ActionAt(cfg, run, i, a), After(cfg, run[..i]).nextSnapshot, run[i].now);
  }

  lemma NothingStoredYet(cfg: Settings, run: seq<Event>, a: AuctionId)
    ensures HoldsStoredAt(cfg, run, 0, a)
  {
  }

  lemma {:induction false} TablesHoldStored(cfg: Settings, run: seq<Event>, i: nat, a: AuctionId)
    requires Valid(cfg, run) && i <= |run|
    ensures HoldsStoredAt(cfg, run, i, a)
  {
    hide *;
    if i == 0 {
      NothingStoredYet(cfg, run, a);
    } else {
      TablesHoldStored(cfg, run, i - 1, a);
      HoldsStoredNext(cfg, run, i - 1, a);
    }
  }

  /** In every run, whatever is purged, the row's title, start time, quantity and store flag are those of the last
      observation that was stored, and the latest snapshot, if there is one, is that observation's. */
  lemma RowShowsLastStored(cfg: Settings, run: seq<Event>, i: nat, a: AuctionId)
    requires Valid(cfg, run) && i <= |run| && Observations(cfg, run, i, a) != []
    ensures
      var stored := LastStored(cfg, run, i, a);
      var x := SliceAt(cfg, run, i, a);
      && stored.Some? && x.row.Some? && DetailsInRow(x.row.value) == DetailsOf(stored.value)
      && (HasBaseline(cfg, run, i, a) ==>
            && x.snapshots != []
            && exists id :: x.snapshots[|x.snapshots| - 1] == SnapshotOf(id, stored.value))
  {
    hide SliceAt, Observations, LastStored, Valid;
    TablesHoldStored(cfg, run, i, a);
  }

  lemma LastChangeNext(seen: seq<AuctionState>, s: AuctionState)
    ensures
      var all := seen + [s];
      all[LastChange(all)] == if seen == [] || ComparedFields(seen[|seen| - 1]) != ComparedFields(s) then s
                              else seen[LastChange(seen)]
  {
    var all := seen + [s];
    LastChangeOf(all);
    assert all[..|seen|] == seen;
    hide LastChange, ComparedFields;
  }

  lemma LastChangeOf(all: seq<AuctionState>)
    requires all != []
    ensures
      var n := |all| - 1;
      LastChange(all) == if n == 0 || ComparedFields(all[n]) != ComparedFields(all[n - 1]) then n
                         else LastChange(all[..n])
  {
  }

  /** If no purge removes the auction's latest snapshot, the last stored observation is the last that changed a
      compared field. */
  lemma {:induction false} LastStoredIsLastChange(cfg: Settings, run: seq<Event>, i: nat, a: AuctionId)
    requires Valid(cfg, run) && i <= |run| && Spared(cfg, run, 0, i, a) && Observations(cfg, run, i, a) != []
    ensures
      var seen := Observations(cfg, run, i, a);
      LastStored(cfg, run, i, a) == Some(seen[LastChange(seen)]) == Stored(seen, PRICE_CHANGE_THRESHOLD)
  {
    hide SliceAt, ActionAt, Valid, SparesAt, LastChange;
    var before := Observations(cfg, run, i - 1, a);
    StoredIsLastChange(Observations(cfg, run, i, a));
    if before != [] {
      SparedBefore(cfg, run, 0, i - 1, i, a);
      LastStoredIsLastChange(cfg, run, i - 1, a);
      ObservedHasBaseline(cfg, run, i - 1, a);
    }
    if ActionAt(cfg, run, i - 1, a).Observe? {
      LastChangeNext(before, ActionAt(cfg, run, i - 1, a).state);
    }
  }

  /** In every run whose purges spare the auction's latest snapshot, the row's title, start time, quantity and store
      flag are those of the last observation that changed a compared field, and the latest snapshot is the one stored
      for it. */
  lemma RowShowsLastChange(cfg: Settings, run: seq<Event>, i: nat, a: AuctionId)
    requires Valid(cfg, run) && i <= |run| && Spared(cfg, run, 0, i, a) && Observations(cfg, run, i, a) != []
    ensures
      var seen := Observations(cfg, run, i, a);
      var stored := seen[LastChange(seen)];
      var x := SliceAt(cfg, run, i, a);
      && Stored(seen, PRICE_CHANGE_THRESHOLD) == Some(stored)
      && x.row.Some? && DetailsInRow(x.row.value) == DetailsOf(stored)
      && x.snapshots != []
      && exists id :: x.snapshots[|x.snapshots| - 1] == SnapshotOf(id, stored)
  {
    hide SliceAt, Observations, LastStored, Valid, Spared, LastChange;
    RowShowsLastStored(cfg, run, i, a);
    LastStoredIsLastChange(cfg, run, i, a);
    ObservedHasBaseline(cfg, run, i, a);
  }

  lemma ActRefreshesIff(cfg: Settings, x: Slice, s: AuctionState, next: int, now: Time)
    requires SliceInv(x, next, now) && Sensible(x, Observe(s), now)
    ensures Act(cfg, x, Observe(s), next).row.Some?
    ensures DetailsInRow(Act(cfg, x, Observe(s), next).row.value) == DetailsOf(s)
       <==> x.snapshots == [] || ComparedInRow(x.row.value) != ComparedFields(s)
            || DetailsInRow(x.row.value) == DetailsOf(s)
  {
    PreviousIsLast(x.snapshots);
    if x.snapshots != [] {
      ChangedIffFieldsDiffer(StateFromSnapshot(x.snapshots[|x.snapshots| - 1]), s);
    }
  }

  /** After a poll the row shows the details it saw if and only if there was no snapshot, or a compared field
      changed, or the row showed them before. */
  lemma PollRefreshesDetailsIff(cfg: Settings, run: seq<Event>, i: nat, a: AuctionId)
    requires Valid(cfg, run) && i < |run| && ActionAt(cfg, run, i, a).Observe?
    ensures
      var x, s := SliceAt(cfg, run, i, a), ActionAt(cfg, run, i, a).state;
      var row := SliceAt(cfg, run, i + 1, a).row;
      && x.row.Some? && row.Some?
      && (DetailsInRow(row.value) == DetailsOf(s) <==>
            || x.snapshots == [] || ComparedInRow(x.row.value) != ComparedFields(s)
            || DetailsInRow(x.row.value) == DetailsOf(s))
  {
    SliceStep(cfg, run, i, a);
    ActRefreshesIff(cfg, SliceAt(cfg, run, i, a), ActionAt(cfg, run, i, a).state, After(cfg, run[..i]).nextSnapshot,
                    run[i].now);
  }
}
