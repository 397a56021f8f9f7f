/** Whole runs in which the code does less than one may expect. */
module Counterexamples {
  import opened AuctionTypes
  import opened Lists
  import opened Diff
  import opened Notifications
  import opened Polling
  import opened Tables
  import opened Monitoring
  import opened Runs
  import opened History
  import opened Delivery
  import Engine
  import Ticking
  import Validation
  import Watchlist

  // ---------------------------------------------------------------- building runs

  lemma ExtendRun(cfg: Settings, run: seq<Event>, e: Event, a: AuctionId) returns (run': seq<Event>)
    requires Valid(cfg, run) && Enabled(cfg, After(cfg, run), e) && (run != [] ==> run[|run| - 1].now <= e.now)
    ensures run' == run + [e] && Valid(cfg, run') && After(cfg, run') == Step(cfg, After(cfg, run), e)
    ensures Observations(cfg, run', |run'|, a)
         == Seeing(Observations(cfg, run, |run|, a), ActionOn(cfg, After(cfg, run), e, a))
    ensures SliceOf(After(cfg, run'), a) == Act(cfg, SliceOf(After(cfg, run), a),
                                                ActionOn(cfg, After(cfg, run), e, a), After(cfg, run).nextSnapshot)
  {
    run' := run + [e];
    assert run'[..|run|] == run && run'[..|run'|] == run';
    forall k | 0 <= k < |run'|
      ensures ValidAt(cfg, run', k)
    {
      assert k < |run| ==> run'[..k] == run[..k] && ValidAt(cfg, run, k);
    }
    SamePrefix(cfg, run', run, |run|, a);
    StepOn(cfg, After(cfg, run), e, a);
  }

  lemma {:induction false} SamePrefix(cfg: Settings, long: seq<Event>, run: seq<Event>, i: nat, a: AuctionId)
    requires i <= |run| <= |long| && long[..|run|] == run
    ensures Observations(cfg, long, i, a) == Observations(cfg, run, i, a)
  {
    if i > 0 {
      SamePrefix(cfg, long, run, i - 1, a);
      assert long[..i - 1] == run[..i - 1] && long[i - 1] == run[i - 1];
    }
  }

  lemma {:induction false} Listed(s: set<int>) returns (xs: seq<int>)
    ensures Distinct(xs) && forall x :: x in xs <==> x in s
    decreases |s|
  {
    xs := [];
    if x :| x in s {
      var rest := Listed(s - {x});
      xs := rest + [x];
    }
  }

  lemma WatchersListed(db: Db, a: AuctionId) returns (watchers: seq<int>)
    ensures IsWatcherList(db, a, watchers)
  {
    watchers := Listed(set l | l in db.links && Notified(db, l, a));
  }

  /** A poll that decides nothing inserts no row. */
  lemma QuietPoll(cfg: Settings, db: Db, a: AuctionId, s: AuctionState, now: Time, fan: Engine.Fan)
    requires Effective(db, a) && KindsFor(SliceOf(db, a), s, cfg.thresholds) == []
    requires fan == Engine.Fan(db.notes, db.nextNote, [])
    ensures Faithful(cfg, db, Poll(a, Observed(s), now, fan))
  {
    var watchers := WatchersListed(db, a);
    assert Decisions(db.auctions[a], db.SnapshotsOf(a), s, cfg.thresholds) == [];
    assert fan == FanOfPoll(db, a, Observed(s), now, watchers, cfg);
  }

  lemma PollKeepsFan(cfg: Settings, db: Db, a: AuctionId, s: AuctionState, now: Time, fan: Engine.Fan)
    requires Effective(db, a)
    ensures
      var db' := Step(cfg, db, Poll(a, Observed(s), now, fan));
      db'.notes == fan.notes && db'.nextNote == fan.next
  {
  }

  /** Nothing is decided without a snapshot, nor at one instant if no compared field has changed. */
  lemma NothingToTell(x: Slice, s: AuctionState, th: Thresholds)
    requires x.row.Some? && Chronological(x.snapshots)
    requires x.snapshots != [] ==>
      && ComparedFields(StateFromSnapshot(x.snapshots[|x.snapshots| - 1])) == ComparedFields(s)
      && LastPoll(x) == s.observedAt
    ensures KindsFor(x, s, th) == []
  {
    PreviousIsLast(x.snapshots);
    if x.snapshots != [] {
      var p := StateFromSnapshot(x.snapshots[|x.snapshots| - 1]);
      ChangeTable(p, s, ChangeKinds(FlagsOf(Some(p), s, PRICE_CHANGE_THRESHOLD), s.isClosed));
      if s.endTime.Some? {
        NothingCrosses(3, s.endTime.value, s.observedAt, th);
      }
    }
  }

  lemma {:induction false} NothingCrosses(n: nat, end: Time, now: Time, th: Thresholds)
    requires n <= 3
    ensures TimedKinds(n, end, now, now, th) == []
  {
    if n > 0 {
      NothingCrosses(n - 1, end, now, th);
    }
  }

  const NO_NOTES: Engine.Fan := Engine.Fan(map[], 0, [])

  predicate HasNoNotes(db: Db) { db.notes == map[] && db.nextNote == 0 }

  lemma StaysReal(cfg: Settings, run: seq<Event>, e: Event)
    requires Real(cfg, run) && Valid(cfg, run + [e]) && Faithful(cfg, After(cfg, run), e)
    ensures Real(cfg, run + [e])
  {
    hide Valid, Faithful, After;
    var run' := run + [e];
    forall k | 0 <= k < |run'|
      ensures FaithfulAt(cfg, run', k)
    {
      assert run'[..k] == run[..k];
      assert k < |run| ==> FaithfulAt(cfg, run, k);
      assert run[..|run|] == run;
    }
  }

  /** A poll observes `s` at once, with nothing to tell. */
  lemma ObserveQuietly(cfg: Settings, run: seq<Event>, a: AuctionId, s: AuctionState) returns (run': seq<Event>)
    requires Real(cfg, run) && HasNoNotes(After(cfg, run)) && (run != [] ==> run[|run| - 1].now <= s.observedAt)
    requires
      var x := SliceOf(After(cfg, run), a);
      && IsActive(x) && x.row.Some? && LastPoll(x) <= s.observedAt && KindsFor(x, s, cfg.thresholds) == []
    ensures run' == run + [Poll(a, Observed(s), s.observedAt, NO_NOTES)]
    ensures Real(cfg, run') && HasNoNotes(After(cfg, run'))
    ensures Observations(cfg, run', |run'|, a) == Seeing(Observations(cfg, run, |run|, a), Observe(s))
    ensures SliceOf(After(cfg, run'), a)
         == Act(cfg, SliceOf(After(cfg, run), a), Observe(s), After(cfg, run).nextSnapshot)
  {
    var db, e := After(cfg, run), Poll(a, Observed(s), s.observedAt, NO_NOTES);
    ActiveIsObserved(cfg, db, a, s, s.observedAt, NO_NOTES);
    QuietPoll(cfg, db, a, s, s.observedAt, NO_NOTES);
    PollKeepsFan(cfg, db, a, s, s.observedAt, NO_NOTES);
    hide Step, ActionOn, After, Valid, Observations, Enabled, Faithful, KindsFor;
    run' := ExtendRun(cfg, run, e, a);
    StaysReal(cfg, run, e);
  }

  /** The auction shows `s`, as it was observed once at time 0. */
  ghost predicate ShowsFirst(x: Slice, s: AuctionState) {
    && IsActive(x) && x.row.Some? && x.row.value.title == s.title && LastPoll(x) == 0 == s.observedAt
    && ComparedInRow(x.row.value) == ComparedFields(s)
    && |x.snapshots| == 1 && x.snapshots[0] == SnapshotOf(x.snapshots[0].id, s)
  }

  lemma FirstAdded(cfg: Settings, url: string, a: AuctionId, s: AuctionState) returns (run: seq<Event>, page: string)
    requires cfg.Valid() && Watchlist.NamedAuction(url) == Some(a)
    ensures Real(cfg, run) && run == [AddWatch(1, url, Some(s), 0)] && HasNoNotes(After(cfg, run))
    ensures SliceOf(After(cfg, run), a) == Slice(Some(NewRow(page, s, 0)), []) && Observations(cfg, run, |run|, a) == []
  {
    var e := AddWatch(1, url, Some(s), 0);
    page := Watchlist.CanonicalUrl(url);
    AddCreates(cfg, url, a, s);
    AddNamedLinks(EMPTY_DB, 1, a, page, Some(s), 0);
    hide ActionOn, Watchlist.NamedAuction, Watchlist.CanonicalUrl, Watchlist.AddNamed;
    run := ExtendRun(cfg, [], e, a);
    StaysReal(cfg, [], e);
  }

  lemma AddCreates(cfg: Settings, url: string, a: AuctionId, s: AuctionState)
    requires Watchlist.NamedAuction(url) == Some(a)
    ensures ActionOn(cfg, EMPTY_DB, AddWatch(1, url, Some(s), 0), a) == Create(Watchlist.CanonicalUrl(url), s, 0)
  {
  }

  lemma FirstPolled(cfg: Settings, url: string, a: AuctionId, s: AuctionState) returns (run: seq<Event>)
    requires cfg.Valid() && Watchlist.NamedAuction(url) == Some(a) && !s.isClosed && s.observedAt == 0
    ensures Real(cfg, run) && run == [AddWatch(1, url, Some(s), 0), Poll(a, Observed(s), 0, NO_NOTES)]
    ensures HasNoNotes(After(cfg, run)) && ShowsFirst(SliceOf(After(cfg, run), a), s)
    ensures Observations(cfg, run, |run|, a) == [s]
  {
    var page;
    run, page := FirstAdded(cfg, url, a, s);
    hide *;
    NewRowIsObserved(cfg, page, s, After(cfg, run).nextSnapshot);
    run := ObserveQuietly(cfg, run, a, s);
    SeesFirst(s);
  }

  lemma SeesFirst(s: AuctionState)
    ensures Seeing([], Observe(s)) == [s]
  {
  }

  lemma NewRowIsObserved(cfg: Settings, url: string, s: AuctionState, next: int)
    requires !s.isClosed && s.observedAt == 0
    ensures
      var x := Slice(Some(NewRow(url, s, 0)), []);
      && IsActive(x) && x.row.Some? && LastPoll(x) == 0 && KindsFor(x, s, cfg.thresholds) == []
      && ShowsFirst(Act(cfg, x, Observe(s), next), s)
  {
    NothingToTell(Slice(Some(NewRow(url, s, 0)), []), s, cfg.thresholds);
  }

  lemma ActiveIsObserved(cfg: Settings, db: Db, a: AuctionId, s: AuctionState, now: Time, fan: Engine.Fan)
    requires IsActive(SliceOf(db, a))
    requires PreviousPoll(SliceOf(db, a).row.value) <= s.observedAt <= now
    ensures Enabled(cfg, db, Poll(a, Observed(s), now, fan))
    ensures ActionOn(cfg, db, Poll(a, Observed(s), now, fan), a) == Observe(s)
  {
  }

  // ---------------------------------------------------------------- details go stale

  ghost predicate NoPurge(run: seq<Event>) {
    forall i :: 0 <= i < |run| ==> !run[i].Purge?
  }

  /** The run ends with a title in the row that is not the one seen last, although all compared fields are. */
  ghost predicate ShowsOldTitle(cfg: Settings, run: seq<Event>, a: AuctionId, before: Option<string>, title: string) {
    var seen := Observations(cfg, run, |run|, a);
    var row := SliceAt(cfg, run, |run|, a).row;
    && seen != [] && seen[|seen| - 1].title == Some(title)
    && row.Some? && row.value.title == before != Some(title)
    && ComparedInRow(row.value) == ComparedFields(seen[|seen| - 1])
  }

  lemma TitleIsKept(cfg: Settings, x: Slice, s: AuctionState, title: string, next: int)
    requires ShowsFirst(x, s)
    ensures IsActive(x) && x.row.Some? && LastPoll(x) == 0 == s.observedAt
    ensures KindsFor(x, s.(title := Some(title)), cfg.thresholds) == []
    ensures
      var row := Act(cfg, x, Observe(s.(title := Some(title))), next).row;
      row.Some? && row.value.title == s.title && ComparedInRow(row.value) == ComparedFields(s.(title := Some(title)))
  {
    PreviousIsLast(x.snapshots);
    NothingToTell(x, s.(title := Some(title)), cfg.thresholds);
  }

  lemma PollsDoNotPurge(run: seq<Event>)
    requires |run| == 3 && !run[0].Purge? && !run[1].Purge? && !run[2].Purge?
    ensures NoPurge(run)
  {
  }

  lemma OldTitleShown(cfg: Settings, earlier: seq<Event>, run: seq<Event>, a: AuctionId, s: AuctionState,
                      s': AuctionState, title: string)
    requires Observations(cfg, run, |run|, a) == Seeing(Observations(cfg, earlier, |earlier|, a), Observe(s'))
    requires s' == s.(title := Some(title)) && s.title != Some(title)
    requires
      var row := SliceOf(After(cfg, run), a).row;
      row.Some? && row.value.title == s.title && ComparedInRow(row.value) == ComparedFields(s')
    ensures ShowsOldTitle(cfg, run, a, s.title, title)
  {
    hide After, Observations;
    assert run[..|run|] == run;
  }

  lemma TitleStaysOld(cfg: Settings, url: string, a: AuctionId, s: AuctionState, title: string)
    returns (run: seq<Event>)
    requires cfg.Valid() && Watchlist.NamedAuction(url) == Some(a)
    requires !s.isClosed && s.observedAt == 0 && s.title != Some(title)
    ensures Real(cfg, run) && NoPurge(run) && ShowsOldTitle(cfg, run, a, s.title, title)
  {
    hide *;
    var s' := s.(title := Some(title));
    var earlier := FirstPolled(cfg, url, a, s);
    TitleIsKept(cfg, SliceOf(After(cfg, earlier), a), s, title, After(cfg, earlier).nextSnapshot);
    run := ObserveQuietly(cfg, earlier, a, s');
    OldTitleShown(cfg, earlier, run, a, s, s', title);
    assert run == [AddWatch(1, url, Some(s), 0), Poll(a, Observed(s), 0, NO_NOTES), Poll(a, Observed(s'), 0, NO_NOTES)];
    PollsDoNotPurge(run);
  }

  /** With any settings: an auction is added, polled, and polled again after only its title has changed; the row
      keeps the old title. */
  lemma TitleGoesStale(cfg: Settings, a: AuctionId, s: AuctionState, title: string) returns (run: seq<Event>)
    requires cfg.Valid() && Validation.IsId(a) && |Validation.Canonical(a)| <= Validation.MAX_URL_LEN
    requires !s.isClosed && s.observedAt == 0 && s.title != Some(title)
    ensures Real(cfg, run) && NoPurge(run) && ShowsOldTitle(cfg, run, a, s.title, title)
  {
    Watchlist.EveryIdIsNamed(a);
    hide *;
    run := TitleStaysOld(cfg, Validation.Canonical(a), a, s, title);
  }

  // ---------------------------------------------------------------- a purge hides a change

  lemma PurgeEmpties(cfg: Settings, x: Slice, s: AuctionState, before: Time, next: int)
    requires ShowsFirst(x, s) && s.observedAt < before
    ensures
      var y := Act(cfg, x, Forget(before), next);
      y == Slice(x.row, []) && IsActive(y) && LastPoll(y) == 0
  {
    ForgetSparesIff(x, before);
  }

  lemma PurgeForgets(cfg: Settings, db: Db, a: AuctionId, now: Time, before: Time)
    ensures ActionOn(cfg, db, Purge(now, before), a) == Forget(before) && Enabled(cfg, db, Purge(now, before))
    ensures Faithful(cfg, db, Purge(now, before))
    ensures HasNoNotes(db) ==> HasNoNotes(Step(cfg, db, Purge(now, before)))
  {
  }

  lemma PriceChangeCounts(s: AuctionState, s': AuctionState, th: Thresholds)
    requires s' == s.(currentPrice := s'.currentPrice, observedAt := s'.observedAt)
    requires s.currentPrice != s'.currentPrice
    ensures Change in SimpleKinds([s], s', th)
  {
    var changes := ChangeKinds(FlagsOf(Some(s), s', PRICE_CHANGE_THRESHOLD), s'.isClosed);
    ChangeTable(s, s', changes);
    assert changes == [Change] && changes[0] == Change;
  }

  /** The run up to the purge. */
  lemma PolledAndPurged(cfg: Settings, url: string, a: AuctionId, s: AuctionState, now: Time, before: Time)
    returns (run: seq<Event>)
    requires cfg.Valid() && Watchlist.NamedAuction(url) == Some(a) && !s.isClosed && s.observedAt == 0 < before <= now
    ensures Real(cfg, run) && HasNoNotes(After(cfg, run)) && Observations(cfg, run, |run|, a) == [s]
    ensures run == [AddWatch(1, url, Some(s), 0), Poll(a, Observed(s), 0, NO_NOTES), Purge(now, before)]
    ensures
      var x := SliceOf(After(cfg, run), a);
      x.snapshots == [] && IsActive(x) && x.row.Some? && LastPoll(x) == 0
  {
    var earlier := FirstPolled(cfg, url, a, s);
    var db, e := After(cfg, earlier), Purge(now, before);
    PurgeForgets(cfg, db, a, now, before);
    PurgeEmpties(cfg, SliceOf(db, a), s, before, db.nextSnapshot);
    hide *;
    run := ExtendRun(cfg, earlier, e, a);
    StaysReal(cfg, earlier, e);
    SeesNothing([s], before);
  }

  lemma SeesNothing(seen: seq<AuctionState>, before: Time)
    ensures Seeing(seen, Forget(before)) == seen
  {
  }

  lemma LastStepDecidesNothing(cfg: Settings, earlier: seq<Event>, e: Event, a: AuctionId, s': AuctionState)
    requires Valid(cfg, earlier + [e]) && ActionOn(cfg, After(cfg, earlier), e, a) == Observe(s')
    requires SliceOf(After(cfg, earlier), a).snapshots == []
    ensures
      var run, n := earlier + [e], |earlier|;
      && ActionAt(cfg, run, n, a) == Observe(s') && KindsAt(cfg, run, n, a) == []
      && Observations(cfg, run, n, a) == Observations(cfg, earlier, n, a)
  {
    hide Valid, ActionOn, After, Observations, KindsAt;
    var run := earlier + [e];
    assert run[..|earlier|] == earlier;
    SnapshotLogRefinesHistory(cfg, run, |earlier|, a);
    SamePrefix(cfg, run, earlier, |earlier|, a);
  }

  /** With any settings and any retention time: an auction is added and polled, its only snapshot gets older than
      the retention time and is purged, and the next poll decides nothing although the price has changed since, for
      which a system that keeps every observation would decide CHANGE. */
  lemma PurgeHidesChange(cfg: Settings, a: AuctionId, s: AuctionState, price: Option<int>, retention: nat, now: Time)
    returns (run: seq<Event>)
    requires cfg.Valid() && Validation.IsId(a) && |Validation.Canonical(a)| <= Validation.MAX_URL_LEN
    requires !s.isClosed && s.observedAt == 0 && retention < now && s.currentPrice != price
    ensures Real(cfg, run) && |run| == 4 && run[2] == Purge(now, now - retention)
    ensures ActionAt(cfg, run, 3, a) == Observe(s.(currentPrice := price, observedAt := now))
    ensures KindsAt(cfg, run, 3, a) == []
    ensures Change in SimpleKinds(Observations(cfg, run, 3, a), ActionAt(cfg, run, 3, a).state, cfg.thresholds)
  {
    Watchlist.EveryIdIsNamed(a);
    hide *;
    var s' := s.(currentPrice := price, observedAt := now);
    var earlier := PolledAndPurged(cfg, Validation.Canonical(a), a, s, now, now - retention);
    NothingToTell(SliceOf(After(cfg, earlier), a), s', cfg.thresholds);
    ActiveIsObserved(cfg, After(cfg, earlier), a, s', now, NO_NOTES);
    run := ObserveQuietly(cfg, earlier, a, s');
    LastStepDecidesNothing(cfg, earlier, run[3], a, s');
    PriceChangeCounts(s, s', cfg.thresholds);
  }

  // ---------------------------------------------------------------- a leftover job polls early

  /** The auction `a` is the only one, and somebody watches it. */
  ghost predicate OnlyWatched(db: Db, a: AuctionId) {
    && db.auctions.Keys == {a} && HasWatcher(db, a) && HasNoNotes(db)
    && !db.auctions[a].isClosed && db.auctions[a].monitoringActive && db.auctions[a].nextPollAt.Some?
  }

  lemma AddedIsWatched(cfg: Settings, url: string, a: AuctionId, s: AuctionState)
    requires Watchlist.NamedAuction(url) == Some(a) && !s.isClosed
    ensures OnlyWatched(Step(cfg, EMPTY_DB, AddWatch(1, url, Some(s), 0)), a)
  {
    hide Watchlist.NamedAuction, Watchlist.CanonicalUrl;
    var db := Step(cfg, EMPTY_DB, AddWatch(1, url, Some(s), 0));
    var ready := Watchlist.WithUserAndAuction(EMPTY_DB, 1, a, Watchlist.CanonicalUrl(url), Some(s), 0);
    assert Watchlist.LinksOf(ready, 1, a) == {};
    assert 0 in db.links && db.links[0].auction == a;
  }

  /** It has not been polled yet, and is due at `due`. */
  ghost predicate Awaits(x: Slice, due: Time) {
    x.row.Some? && x.snapshots == [] && LastPoll(x) == 0 && x.row.value.nextPollAt == Some(due)
  }

  lemma TickPicksIt(cfg: Settings, db: Db, a: AuctionId, due: Time, now: Time)
    requires OnlyWatched(db, a) && Awaits(SliceOf(db, a), due) && due <= now && cfg.dueLimit > 0
    ensures Enabled(cfg, db, Tick(now, [a])) && Faithful(cfg, db, Tick(now, [a]))
    ensures Awaits(Act(cfg, SliceOf(db, a), ActionOn(cfg, db, Tick(now, [a]), a), db.nextSnapshot), now + cfg.lockTtl)
    ensures a in Ticking.Enqueued(db, [a])
  {
    Ticking.EnqueuedIff(db, [a], a);
  }

  lemma TickKeepsIt(cfg: Settings, db: Db, a: AuctionId, now: Time)
    requires OnlyWatched(db, a)
    ensures OnlyWatched(Step(cfg, db, Tick(now, [a])), a)
  {
    var picked := db.(auctions := Ticking.PickedAuctions(db, [a], now, cfg));
    assert FinalizedLinks(picked) == {};
    var l :| l in db.links && db.links[l].auction == a;
    var db' := Step(cfg, db, Tick(now, [a]));
    assert l in db'.links && db'.links[l].auction == a;
    assert db'.notes == map[];
  }

  /** Step `k` is a tick that enqueues a poll of `a`. */
  ghost predicate EnqueuesAt(cfg: Settings, run: seq<Event>, k: nat, a: AuctionId) {
    k < |run| && run[k].Tick? && a in Ticking.Enqueued(DbAt(cfg, run, k), run[k].due)
  }

  lemma EnqueuedInLonger(cfg: Settings, run: seq<Event>, e: Event, k: nat, a: AuctionId)
    requires EnqueuesAt(cfg, run, k, a)
    ensures EnqueuesAt(cfg, run + [e], k, a)
  {
    assert (run + [e])[..k] == run[..k];
  }

  lemma EnqueuedLast(cfg: Settings, run: seq<Event>, now: Time, a: AuctionId)
    requires a in Ticking.Enqueued(After(cfg, run), [a])
    ensures EnqueuesAt(cfg, run + [Tick(now, [a])], |run|, a)
  {
    assert (run + [Tick(now, [a])])[..|run|] == run;
  }

  lemma TickOnce(cfg: Settings, run: seq<Event>, a: AuctionId, due: Time, now: Time) returns (run': seq<Event>)
    requires Real(cfg, run) && OnlyWatched(After(cfg, run), a) && Awaits(SliceOf(After(cfg, run), a), due)
    requires cfg.dueLimit > 0 && due <= now && (run != [] ==> run[|run| - 1].now <= now)
    ensures run' == run + [Tick(now, [a])] && Real(cfg, run') && EnqueuesAt(cfg, run', |run|, a)
    ensures OnlyWatched(After(cfg, run'), a) && Awaits(SliceOf(After(cfg, run'), a), now + cfg.lockTtl)
  {
    TickPicksIt(cfg, After(cfg, run), a, due, now);
    TickKeepsIt(cfg, After(cfg, run), a, now);
    EnqueuedLast(cfg, run, now, a);
    hide Step, ActionOn, After, Valid, Enabled, Faithful, Observations, OnlyWatched, Awaits, EnqueuesAt;
    run' := ExtendRun(cfg, run, Tick(now, [a]), a);
    StaysReal(cfg, run, Tick(now, [a]));
  }

  lemma AddedOnce(cfg: Settings, url: string, a: AuctionId, s: AuctionState) returns (run: seq<Event>)
    requires cfg.Valid() && Watchlist.NamedAuction(url) == Some(a) && !s.isClosed
    ensures run == [AddWatch(1, url, Some(s), 0)] && Real(cfg, run)
    ensures OnlyWatched(After(cfg, run), a) && Awaits(SliceOf(After(cfg, run), a), 0)
  {
    var page;
    run, page := FirstAdded(cfg, url, a, s);
    AddedIsWatched(cfg, url, a, s);
    hide Step, Watchlist.NamedAuction;
    assert run[..0] == [];
  }

  lemma TtlIsNotNegative(cfg: Settings)
    requires cfg.Valid()
    ensures 0 <= cfg.lockTtl
  {
  }

  /** Two ticks, a lock's lifetime apart, before the first poll of the auction is made. */
  lemma PickedTwice(cfg: Settings, url: string, a: AuctionId, s: AuctionState) returns (run: seq<Event>)
    requires cfg.Valid() && cfg.dueLimit > 0 && Watchlist.NamedAuction(url) == Some(a) && !s.isClosed
    ensures |run| == 3 && run[1] == Tick(0, [a]) && run[2] == Tick(cfg.lockTtl, [a]) && Real(cfg, run)
    ensures EnqueuesAt(cfg, run, 1, a) && EnqueuesAt(cfg, run, 2, a)
    ensures OnlyWatched(After(cfg, run), a) && Awaits(SliceOf(After(cfg, run), a), cfg.lockTtl + cfg.lockTtl)
  {
    hide *;
    TtlIsNotNegative(cfg);
    var one := AddedOnce(cfg, url, a, s);
    var two := TickOnce(cfg, one, a, 0, 0);
    run := TickOnce(cfg, two, a, cfg.lockTtl, cfg.lockTtl);
    EnqueuedInLonger(cfg, two, run[2], 1, a);
  }

  /** The last step of the run polls the auction before the instant that its row asks for. */
  ghost predicate PollsEarly(cfg: Settings, run: seq<Event>, a: AuctionId)
    requires run != []
  {
    var n := |run| - 1;
    var row := SliceAt(cfg, run, n, a).row;
    && row.Some? && row.value.nextPollAt.Some? && ActionAt(cfg, run, n, a).Observe?
    && ActionAt(cfg, run, n, a).state.observedAt < row.value.nextPollAt.value
  }

  lemma FirstQuiet(cfg: Settings, db: Db, a: AuctionId, s: AuctionState, due: Time)
    requires OnlyWatched(db, a) && Awaits(SliceOf(db, a), due) && cfg.Valid() && s.observedAt == cfg.lockTtl
    ensures
      var x := SliceOf(db, a);
      && IsActive(x) && x.row.Some? && LastPoll(x) <= s.observedAt && x.snapshots == []
      && HasNoNotes(db) && KindsFor(x, s, cfg.thresholds) == []
  {
    NothingToTell(SliceOf(db, a), s, cfg.thresholds);
  }

  /** The auction has been observed just now, and asks for the next poll later. */
  ghost predicate AsksLater(cfg: Settings, x: Slice, s: AuctionState) {
    && IsActive(x) && x.row.Some? && LastPoll(x) == s.observedAt < NextPollAt(s, cfg.intervals)
    && x.row.value.nextPollAt == Some(NextPollAt(s, cfg.intervals)) && KindsFor(x, s, cfg.thresholds) == []
  }

  lemma SecondQuiet(cfg: Settings, x: Slice, s: AuctionState, next: int)
    requires IsActive(x) && x.snapshots == [] && !s.isClosed && s.observedAt < NextPollAt(s, cfg.intervals)
    ensures AsksLater(cfg, Act(cfg, x, Observe(s), next), s)
  {
    FirstObservation(cfg, x, s, next);
    SnapshotKeepsComparedFields(next, s);
    hide Act, KindsFor, NextPollAt, StateFromSnapshot, SnapshotOf, ComparedFields;
    NothingToTell(Act(cfg, x, Observe(s), next), s, cfg.thresholds);
  }

  lemma FirstObservation(cfg: Settings, x: Slice, s: AuctionState, next: int)
    requires IsActive(x) && x.snapshots == [] && !s.isClosed
    ensures
      var y := Act(cfg, x, Observe(s), next);
      && y.snapshots == [SnapshotOf(next, s)] && IsActive(y) && LastPoll(y) == s.observedAt
      && y.row.value.nextPollAt == Some(NextPollAt(s, cfg.intervals))
  {
  }

  lemma PollsAgain(cfg: Settings, run: seq<Event>, a: AuctionId, s: AuctionState) returns (run': seq<Event>)
    requires Real(cfg, run) && HasNoNotes(After(cfg, run)) && AsksLater(cfg, SliceOf(After(cfg, run), a), s)
    requires run != [] ==> run[|run| - 1].now <= s.observedAt
    ensures run' == run + [Poll(a, Observed(s), s.observedAt, NO_NOTES)] && Real(cfg, run')
    ensures PollsEarly(cfg, run', a)
  {
    run' := ObserveQuietly(cfg, run, a, s);
    assert run'[..|run|] == run;
    ActiveIsObserved(cfg, After(cfg, run), a, s, s.observedAt, NO_NOTES);
    hide After, NextPollAt, KindsFor;
  }

  lemma LeftoverJobPolls(cfg: Settings, url: string, a: AuctionId, s: AuctionState) returns (run: seq<Event>)
    requires cfg.Valid() && cfg.dueLimit > 0 && Watchlist.NamedAuction(url) == Some(a)
    requires !s.isClosed && s.observedAt == cfg.lockTtl && s.observedAt < NextPollAt(s, cfg.intervals)
    ensures |run| == 5 && run[1] == Tick(0, [a]) && run[2] == Tick(cfg.lockTtl, [a]) && Real(cfg, run)
    ensures EnqueuesAt(cfg, run, 1, a) && EnqueuesAt(cfg, run, 2, a)
    ensures run[3].Poll? && run[4].Poll? && PollsEarly(cfg, run, a)
  {
    hide *;
    var two := PickedTwice(cfg, url, a, s);
    FirstQuiet(cfg, After(cfg, two), a, s, cfg.lockTtl + cfg.lockTtl);
    var one := ObserveQuietly(cfg, two, a, s);
    SecondQuiet(cfg, SliceOf(After(cfg, two), a), s, After(cfg, two).nextSnapshot);
    run := PollsAgain(cfg, one, a, s);
    EnqueuedInLonger(cfg, two, one[3], 1, a);
    EnqueuedInLonger(cfg, two, one[3], 2, a);
    EnqueuedInLonger(cfg, one, run[4], 1, a);
    EnqueuedInLonger(cfg, one, run[4], 2, a);
  }

  /** With any settings that have a polling interval: an auction is picked by two ticks before a worker gets to it, so
      two jobs are queued; when they are worked off, the second polls before the instant that the first asked for. */
  lemma LeftoverJobPollsEarly(cfg: Settings, a: AuctionId, s: AuctionState) returns (run: seq<Event>)
    requires cfg.Valid() && cfg.dueLimit > 0
    requires Validation.IsId(a) && |Validation.Canonical(a)| <= Validation.MAX_URL_LEN
    requires !s.isClosed && s.observedAt == cfg.lockTtl && s.observedAt < NextPollAt(s, cfg.intervals)
    ensures |run| == 5 && run[1] == Tick(0, [a]) && run[2] == Tick(cfg.lockTtl, [a]) && Real(cfg, run)
    ensures EnqueuesAt(cfg, run, 1, a) && EnqueuesAt(cfg, run, 2, a)
    ensures run[3].Poll? && run[4].Poll? && PollsEarly(cfg, run, a)
  {
    Watchlist.EveryIdIsNamed(a);
    hide *;
    run := LeftoverJobPolls(cfg, Validation.Canonical(a), a, s);
  }
}
