/** When an auction is monitored: over every run, and with respect to who stopped it last. */
module Lifecycle {
  import opened AuctionTypes
  import opened Notifications
  import opened Tables
  import opened Monitoring
  import opened Runs
  import opened History
  import Watchlist
  import Series
  import Ticking
  import Validation

  /** Why monitoring was last switched off, if it was not switched on again since. */
  datatype Halted = Running | ByErrors | ByNoWatchers

  function HaltedBy(cfg: Settings, h: Halted, x: Slice, action: Action): Halted {
    match action
    case Create(_, _, _) => Running
    case Resume(_) => Running
    case Halt(_) => ByErrors
    case Fail(_, _) => if x.row.Some? && x.row.value.consecutiveErrors + 1 >= cfg.maxErrors then ByErrors else h
    case Abandon => ByNoWatchers
    case _ => h
  }

  ghost function HaltedAt(cfg: Settings, run: seq<Event>, i: nat, a: AuctionId): Halted
    requires i <= |run|
  {
    if i == 0 then Running
    else HaltedBy(cfg, HaltedAt(cfg, run, i - 1, a), SliceAt(cfg, run, i - 1, a), ActionAt(cfg, run, i - 1, a))
  }

  /** Monitoring is on exactly while the auction is open and nothing switched it off. */
  predicate ActiveWhileRunning(x: Slice, h: Halted) {
    x.row.Some? ==> (x.row.value.monitoringActive <==> !x.row.value.isClosed && h == Running)
  }

  lemma ObservedCloses(cfg: Settings, x: Slice, s: AuctionState, next: int, now: Time)
    requires SliceInv(x, next, now) && Sensible(x, Observe(s), now)
    ensures Act(cfg, x, Observe(s), next).row.Some?
    ensures Act(cfg, x, Observe(s), next).row.value.isClosed == s.isClosed
  {
    ObservationIsRecorded(x.row.value, x.snapshots, s, cfg.intervals);
  }

  lemma ActKeepsActive(cfg: Settings, x: Slice, h: Halted, action: Action, next: int, now: Time)
    requires SliceInv(x, next, now) && Sensible(x, action, now) && ActiveWhileRunning(x, h)
    ensures ActiveWhileRunning(Act(cfg, x, action, next), HaltedBy(cfg, h, x, action))
  {
    if action.Observe? {
      ObservedCloses(cfg, x, action.state, next, now);
    }
  }

  lemma {:induction false} ActiveIffRunning(cfg: Settings, run: seq<Event>, i: nat, a: AuctionId)
    requires Valid(cfg, run) && i <= |run|
    ensures ActiveWhileRunning(SliceAt(cfg, run, i, a), HaltedAt(cfg, run, i, a))
  {
    if i > 0 {
      ActiveIffRunning(cfg, run, i - 1, a);
      hide ActiveWhileRunning;
      ActiveStep(cfg, run, i - 1, a);
    }
  }

  lemma ActiveStep(cfg: Settings, run: seq<Event>, i: nat, a: AuctionId)
    requires Valid(cfg, run) && i < |run| && ActiveWhileRunning(SliceAt(cfg, run, i, a), HaltedAt(cfg, run, i, a))
    ensures ActiveWhileRunning(SliceAt(cfg, run, i + 1, a), HaltedAt(cfg, run, i + 1, a))
  {
    SliceStep(cfg, run, i, a);
    ActKeepsActive(cfg, SliceAt(cfg, run, i, a), HaltedAt(cfg, run, i, a), ActionAt(cfg, run, i, a),
                   After(cfg, run[..i]).nextSnapshot, run[i].now);
  }

  // ---------------------------------------------------------------- no watcher is left behind

  lemma NewLinkComesFromAdd(cfg: Settings, db: Db, e: Event, l: int)
    requires !e.AddWatch? && l in Step(cfg, db, e).links
    ensures
      && l in db.links
      && db.links[l].auction == Step(cfg, db, e).links[l].auction
      && db.links[l].user == Step(cfg, db, e).links[l].user
  {
    hide ObservedRow, FailedRow, StoresSnapshot, SnapshotOf, Stopped, Truncated, Kept, HasWatcher, Settled;
    hide FinalizedLinks, Watchlist.LinksOf, Ticking.PickedAuctions;
    match e
    case Poll(b, o, now, fan) =>
    case RemoveWatch(user, removed, now) =>
    case Tick(now, due) =>
    case Purge(_, before) =>
    case EditLink(_, _, _, _) =>
    case Settle(_, _, _) =>
  }

  /** Only `add_watch` gives an auction its first watcher. */
  lemma FirstWatcherIsAdded(cfg: Settings, db: Db, e: Event, a: AuctionId)
    requires !HasWatcher(db, a) && !e.AddWatch?
    ensures !HasWatcher(Step(cfg, db, e), a)
  {
    var links := Step(cfg, db, e).links;
    forall l | l in links
      ensures links[l].auction != a
    {
      NewLinkComesFromAdd(cfg, db, e, l);
    }
  }

  predicate SwitchesOn(action: Action) { action.Create? || action.Resume? }

  /** The first watcher of an auction leaves it monitored. */
  lemma FirstWatcherResumes(cfg: Settings, db: Db, user: int, b: AuctionId, url: string,
                            fetched: Option<AuctionState>, now: Time, a: AuctionId)
    requires !HasWatcher(db, a) && !IsActive(SliceOf(db, a))
    ensures SwitchesOn(AddNamedAction(db, user, b, url, fetched, now, a))
         || !HasWatcher(Watchlist.AddNamed(db, user, b, url, fetched, now), a)
  {
    if b != a {
      NoOtherWatcher(db, user, b, url, fetched, now, a);
    } else {
      assert forall l :: l in Watchlist.LinksOf(db, user, a) ==> Watches(db, l, a);
    }
  }

  lemma NoOtherWatcher(db: Db, user: int, b: AuctionId, url: string, fetched: Option<AuctionState>, now: Time,
                       a: AuctionId)
    requires !HasWatcher(db, a) && b != a
    ensures !HasWatcher(Watchlist.AddNamed(db, user, b, url, fetched, now), a)
  {
  }

  lemma UnwatchedStepIsSafe(cfg: Settings, db: Db, e: Event, a: AuctionId)
    requires !HasWatcher(db, a) && !IsActive(SliceOf(db, a))
    ensures SwitchesOn(ActionOn(cfg, db, e, a)) || !HasWatcher(Step(cfg, db, e), a)
  {
    if e.AddWatch? {
      var named := Watchlist.NamedAuction(e.url);
      if named.Some? {
        FirstWatcherResumes(cfg, db, e.user, named.value, Watchlist.CanonicalUrl(e.url), e.fetched, e.now, a);
      }
    } else {
      FirstWatcherIsAdded(cfg, db, e, a);
    }
  }

  lemma AbandonedHasNoWatcher(cfg: Settings, db: Db, e: Event, a: AuctionId)
    requires ActionOn(cfg, db, e, a).Abandon?
    ensures !HasWatcher(Step(cfg, db, e), a)
  {
    FirstWatcherIsAdded(cfg, db, e, a);
  }

  lemma StaysUnwatched(cfg: Settings, x: Slice, h: Halted, action: Action, watched: bool, watched': bool)
    requires ActiveWhileRunning(x, h) && (h == ByNoWatchers ==> !watched)
    requires action.Abandon? ==> !watched'
    requires !watched && !IsActive(x) ==> SwitchesOn(action) || !watched'
    ensures HaltedBy(cfg, h, x, action) == ByNoWatchers ==> !watched'
  {
  }

  lemma StepKeepsUnwatched(cfg: Settings, db: Db, e: Event, a: AuctionId, h: Halted)
    requires ActiveWhileRunning(SliceOf(db, a), h) && (h == ByNoWatchers ==> !HasWatcher(db, a))
    ensures HaltedBy(cfg, h, SliceOf(db, a), ActionOn(cfg, db, e, a)) == ByNoWatchers ==>
      !HasWatcher(Step(cfg, db, e), a)
  {
    var action, watched' := ActionOn(cfg, db, e, a), HasWatcher(Step(cfg, db, e), a);
    assert action.Abandon? ==> !watched' by {
      if action.Abandon? {
        AbandonedHasNoWatcher(cfg, db, e, a);
      }
    }
    assert !HasWatcher(db, a) && !IsActive(SliceOf(db, a)) ==> SwitchesOn(action) || !watched' by {
      if !HasWatcher(db, a) && !IsActive(SliceOf(db, a)) {
        UnwatchedStepIsSafe(cfg, db, e, a);
      }
    }
    StaysUnwatched(cfg, SliceOf(db, a), h, action, HasWatcher(db, a), watched');
  }

  /** An auction whose monitoring ended because nobody watched it is still watched by nobody. */
  lemma {:induction false} AbandonedStaysUnwatched(cfg: Settings, run: seq<Event>, i: nat, a: AuctionId)
    requires Valid(cfg, run) && i <= |run|
    ensures HaltedAt(cfg, run, i, a) == ByNoWatchers ==> !HasWatcher(After(cfg, run[..i]), a)
  {
    if i > 0 {
      AbandonedStaysUnwatched(cfg, run, i - 1, a);
      ActiveIffRunning(cfg, run, i - 1, a);
      StepAt(cfg, run, i - 1);
      StepKeepsUnwatched(cfg, After(cfg, run[..i - 1]), run[i - 1], a, HaltedAt(cfg, run, i - 1, a));
    }
  }

  /** The liveness guarantee, on every reachable state: an open auction that somebody watches is monitored and
      scheduled unless errors stopped it since it was last resumed; and it is not monitored in that case. */
  lemma WatchedOpenAuctionIsMonitored(cfg: Settings, run: seq<Event>, i: nat, a: AuctionId)
    requires Valid(cfg, run) && i <= |run|
    ensures
      var db := After(cfg, run[..i]);
      a in db.auctions && !db.auctions[a].isClosed && HasWatcher(db, a) ==>
        && (db.auctions[a].monitoringActive <==> HaltedAt(cfg, run, i, a) != ByErrors)
        && (db.auctions[a].monitoringActive ==> db.auctions[a].nextPollAt.Some?)
  {
    ActiveIffRunning(cfg, run, i, a);
    InvAlways(cfg, run, i, a, if i == 0 then 0 else run[i - 1].now);
    AbandonedStaysUnwatched(cfg, run, i, a);
  }

  /** Adding a watch to a known open auction leaves it monitored exactly when it was monitored already or the
      user did not watch it yet: a user who already watches an auction that errors stopped cannot restart it by
      adding it again. */
  lemma AddWatchRestartsIff(cfg: Settings, db: Db, user: int, url: string, fetched: Option<AuctionState>, now: Time,
                            a: AuctionId)
    requires Watchlist.NamedAuction(url) == Some(a) && a in db.auctions && !db.auctions[a].isClosed
    ensures
      var db' := Step(cfg, db, AddWatch(user, url, fetched, now));
      && a in db'.auctions
      && (db'.auctions[a].monitoringActive <==>
            db.auctions[a].monitoringActive || Watchlist.LinksOf(db, user, a) == {})
  {
    AddOn(cfg, db, user, url, fetched, now, a);
    var action := ActionOn(cfg, db, AddWatch(user, url, fetched, now), a);
    assert SliceOf(Step(cfg, db, AddWatch(user, url, fetched, now)), a)
        == Act(cfg, SliceOf(db, a), action, db.nextSnapshot);
  }

  /** A new auction shows what was fetched, and a tick may pick it from the moment it is added, exactly if it is
      open. */
  lemma NewAuctionIsDueIff(cfg: Settings, db: Db, user: int, url: string, s: AuctionState, now: Time, a: AuctionId,
                           tick: Time)
    requires Watchlist.NamedAuction(url) == Some(a) && a !in db.auctions
    ensures
      var db' := Step(cfg, db, AddWatch(user, url, Some(s), now));
      && a in db'.auctions && ComparedInRow(db'.auctions[a]) == ComparedFields(s)
      && (Ticking.IsDue(db', a, tick) <==> !s.isClosed && now <= tick)
  {
    var page := AddCreates(cfg, db, user, url, s, now, a);
    hide Step;
    NewRowIsDueIff(page, s, now, tick);
  }

  lemma AddCreates(cfg: Settings, db: Db, user: int, url: string, s: AuctionState, now: Time, a: AuctionId)
    returns (page: string)
    requires Watchlist.NamedAuction(url) == Some(a) && a !in db.auctions
    ensures SliceOf(Step(cfg, db, AddWatch(user, url, Some(s), now)), a)
         == Slice(Some(NewRow(page, s, now)), db.SnapshotsOf(a))
  {
    page := Watchlist.CanonicalUrl(url);
    AddOn(cfg, db, user, url, Some(s), now, a);
  }

  lemma NewRowIsDueIff(page: string, s: AuctionState, now: Time, tick: Time)
    ensures
      var r := NewRow(page, s, now);
      && ComparedInRow(r) == ComparedFields(s)
      && (r.monitoringActive && !r.isClosed && r.nextPollAt.Some? && r.nextPollAt.value <= tick
          <==> !s.isClosed && now <= tick)
  {
  }

  lemma NamedCanonically(url: string, a: AuctionId)
    requires Watchlist.NamedAuction(url) == Some(a)
    ensures Watchlist.CanonicalUrl(url) == "https://" + ("page." + ("auctions.yahoo.co.jp/jp/auction/" + a))
  {
    var id := Validation.AcceptedHasId(url, Watchlist.CanonicalUrl(url));
    Validation.CanonicalIsPlain(id);
    Validation.CanonicalSpelled(id);
  }

  /** The row of a new auction: its canonical URL, every column of what was fetched, and no error. */
  lemma NewAuctionShowsPage(cfg: Settings, db: Db, user: int, url: string, s: AuctionState, now: Time, a: AuctionId)
    requires Watchlist.NamedAuction(url) == Some(a) && a !in db.auctions
    ensures
      var db' := Step(cfg, db, AddWatch(user, url, Some(s), now));
      && a in db'.auctions
      && var r := db'.auctions[a];
      && r.url == "https://" + ("page." + ("auctions.yahoo.co.jp/jp/auction/" + a))
      && r.title == s.title && r.startTime == s.startTime && r.quantity == s.quantity && r.isStore == s.isStore
      && ComparedInRow(r) == ComparedFields(s)
      && r.createdAt == now && r.lastPolledAt == Some(now) && r.lastError == None && r.consecutiveErrors == 0
  {
    AddOn(cfg, db, user, url, Some(s), now, a);
    NamedCanonically(url, a);
    hide Watchlist.AddStep, Watchlist.NamedAuction, Watchlist.CanonicalUrl;
  }

  predicate HasItsUrl(x: Slice, a: AuctionId) {
    x.row.Some? ==> x.row.value.url == "https://" + ("page." + ("auctions.yahoo.co.jp/jp/auction/" + a))
  }

  ghost predicate HasItsUrlAt(cfg: Settings, run: seq<Event>, i: nat, a: AuctionId)
    requires i <= |run|
  {
    HasItsUrl(SliceAt(cfg, run, i, a), a)
  }

  lemma CreatesWithItsUrl(cfg: Settings, db: Db, e: Event, a: AuctionId)
    requires ActionOn(cfg, db, e, a).Create?
    ensures ActionOn(cfg, db, e, a).url == "https://" + ("page." + ("auctions.yahoo.co.jp/jp/auction/" + a))
  {
    NamedCanonically(e.url, a);
    hide Watchlist.NamedAuction, Watchlist.CanonicalUrl;
  }

  lemma UrlNext(cfg: Settings, run: seq<Event>, i: nat, a: AuctionId)
    requires Valid(cfg, run) && i < |run| && HasItsUrlAt(cfg, run, i, a)
    ensures HasItsUrlAt(cfg, run, i + 1, a)
  {
    SliceStep(cfg, run, i, a);
    if ActionAt(cfg, run, i, a).Create? {
      CreatesWithItsUrl(cfg, After(cfg, run[..i]), run[i], a);
    }
    hide ActionOn, After, Valid, SliceInv, Sensible;
  }

  /** In every reachable state the stored URL, which polls fetch and notifications link to, is the canonical page of the
      auction that the row is about. */
  lemma {:induction false} EveryRowHasItsUrl(cfg: Settings, run: seq<Event>, i: nat, a: AuctionId)
    requires Valid(cfg, run) && i <= |run|
    ensures HasItsUrlAt(cfg, run, i, a)
  {
    if i > 0 {
      EveryRowHasItsUrl(cfg, run, i - 1, a);
      UrlNext(cfg, run, i - 1, a);
    }
    hide HasItsUrl, ActionOn, Valid;
  }

  // ---------------------------------------------------------------- the grace period

  ghost function DueAt(cfg: Settings, run: seq<Event>, k: nat, a: AuctionId): Option<Time>
    requires k <= |run|
  {
    var row := SliceAt(cfg, run, k, a).row;
    if row.None? then None else row.value.nextPollAt
  }

  /** Step `k` leaves the row of `a` alone. */
  ghost predicate QuietAt(cfg: Settings, run: seq<Event>, k: nat, a: AuctionId)
    requires k < |run|
  {
    ActionAt(cfg, run, k, a).Idle? || ActionAt(cfg, run, k, a).Forget?
  }

  lemma QuietKeepsDue(cfg: Settings, run: seq<Event>, k: nat, a: AuctionId)
    requires Valid(cfg, run) && k < |run| && QuietAt(cfg, run, k, a)
    ensures DueAt(cfg, run, k + 1, a) == DueAt(cfg, run, k, a)
  {
    SliceStep(cfg, run, k, a);
  }

  lemma RemovalSetsDue(cfg: Settings, run: seq<Event>, i: nat, a: AuctionId)
    requires Valid(cfg, run) && i < |run| && run[i].RemoveWatch? && ActionAt(cfg, run, i, a).Reschedule?
    ensures DueAt(cfg, run, i + 1, a) == Some(run[i].now + cfg.grace)
  {
    SliceStep(cfg, run, i, a);
    RemovalReschedules(cfg, After(cfg, run[..i]), run[i], a);
  }

  lemma RemovalReschedules(cfg: Settings, db: Db, e: Event, a: AuctionId)
    requires e.RemoveWatch? && ActionOn(cfg, db, e, a).Reschedule?
    ensures ActionOn(cfg, db, e, a).next == e.now + cfg.grace && a in db.auctions
  {
  }

  lemma AbandonIsDue(cfg: Settings, db: Db, e: Event, a: AuctionId)
    requires Enabled(cfg, db, e) && ActionOn(cfg, db, e, a).Abandon?
    ensures Ticking.IsDue(db, a, e.now) && !HasWatcher(db, a)
  {
  }

  lemma AbandonedWhenDue(cfg: Settings, run: seq<Event>, j: nat, a: AuctionId)
    requires Valid(cfg, run) && j < |run| && ActionAt(cfg, run, j, a).Abandon?
    ensures DueAt(cfg, run, j, a).Some? && DueAt(cfg, run, j, a).value <= run[j].now
    ensures !HasWatcher(After(cfg, run[..j]), a)
  {
    StepAt(cfg, run, j);
    AbandonIsDue(cfg, After(cfg, run[..j]), run[j], a);
  }

  lemma DueStays(cfg: Settings, run: seq<Event>, i: nat, j: nat, a: AuctionId)
    requires Valid(cfg, run) && i <= j <= |run|
    requires forall k :: i <= k < j ==> QuietAt(cfg, run, k, a)
    ensures DueAt(cfg, run, j, a) == DueAt(cfg, run, i, a)
  {
    var due := DueAt(cfg, run, i, a);
    var holds := seq(j + 1, k requires 0 <= k <= j => DueAt(cfg, run, k, a) == due);
    forall k | i <= k < j && holds[k]
      ensures holds[k + 1]
    {
      QuietKeepsDue(cfg, run, k, a);
    }
    Series.Persists(holds, i, j);
  }

  /** The grace period: after its last watcher left, and unless something else acts on it meanwhile, an auction is
      given up no sooner than `grace` later, and only if nobody watches it then. */
  lemma GraceIsKept(cfg: Settings, run: seq<Event>, i: nat, j: nat, a: AuctionId)
    requires Valid(cfg, run) && i < j < |run|
    requires run[i].RemoveWatch? && ActionAt(cfg, run, i, a).Reschedule? && ActionAt(cfg, run, j, a).Abandon?
    requires forall k :: i < k < j ==> QuietAt(cfg, run, k, a)
    ensures run[i].now + cfg.grace <= run[j].now && !HasWatcher(After(cfg, run[..j]), a)
  {
    RemovalSetsDue(cfg, run, i, a);
    DueStays(cfg, run, i + 1, j, a);
    AbandonedWhenDue(cfg, run, j, a);
  }

  // ---------------------------------------------------------------- one watch per user

  /** `uq_user_auction`, and ids that are not used yet. */
  ghost predicate UniqueLinks(db: Db) {
    && (forall k, l :: k in db.links && l in db.links && k != l ==>
          db.links[k].user != db.links[l].user || db.links[k].auction != db.links[l].auction)
    && (forall l :: l in db.links ==> l < db.nextLink)
  }

  lemma AddKeepsLinksUnique(db: Db, user: int, b: AuctionId, url: string, fetched: Option<AuctionState>, now: Time)
    requires UniqueLinks(db)
    ensures UniqueLinks(Watchlist.AddNamed(db, user, b, url, fetched, now))
  {
    AddNamedLinks(db, user, b, url, fetched, now);
    OneMoreLinkUnique(db, user, b, Watchlist.AddNamed(db, user, b, url, fetched, now));
  }

  lemma OneMoreLinkUnique(db: Db, user: int, b: AuctionId, db': Db)
    requires UniqueLinks(db) && db'.nextLink in {db.nextLink, db.nextLink + 1}
    requires db'.links == if db'.nextLink == db.nextLink then db.links
                          else db.links[db.nextLink := Link(user, b, true, None)]
    requires db'.nextLink != db.nextLink ==> Watchlist.LinksOf(db, user, b) == {}
    ensures UniqueLinks(db')
  {
    assert forall l :: l in db.links && db.links[l].user == user && db.links[l].auction == b ==>
      l in Watchlist.LinksOf(db, user, b);
  }

  lemma FewerLinksUnique(db: Db, db': Db)
    requires UniqueLinks(db) && db'.nextLink == db.nextLink
    requires forall l :: l in db'.links ==>
      l in db.links && db.links[l].auction == db'.links[l].auction && db.links[l].user == db'.links[l].user
    ensures UniqueLinks(db')
  {
  }

  lemma OnlyAddsUseLinkIds(cfg: Settings, db: Db, e: Event)
    requires !e.AddWatch?
    ensures Step(cfg, db, e).nextLink == db.nextLink
  {
    match e
    case Poll(b, o, now, fan) =>
    case RemoveWatch(user, removed, now) =>
    case Tick(now, due) =>
    case Purge(_, before) =>
    case EditLink(_, _, _, _) =>
    case Settle(_, _, _) =>
  }

  lemma StepKeepsLinksUnique(cfg: Settings, db: Db, e: Event)
    requires UniqueLinks(db)
    ensures UniqueLinks(Step(cfg, db, e))
  {
    if e.AddWatch? {
      var named := Watchlist.NamedAuction(e.url);
      if named.Some? {
        AddKeepsLinksUnique(db, e.user, named.value, Watchlist.CanonicalUrl(e.url), e.fetched, e.now);
      }
    } else {
      OnlyAddsUseLinkIds(cfg, db, e);
      forall l | l in Step(cfg, db, e).links
        ensures
          && l in db.links
          && db.links[l].auction == Step(cfg, db, e).links[l].auction
          && db.links[l].user == Step(cfg, db, e).links[l].user
      {
        NewLinkComesFromAdd(cfg, db, e, l);
      }
      FewerLinksUnique(db, Step(cfg, db, e));
    }
  }

  /** In every reachable state a user watches an auction at most once. */
  lemma {:induction false} OneWatchPerUser(cfg: Settings, run: seq<Event>, i: nat)
    requires i <= |run|
    ensures UniqueLinks(After(cfg, run[..i]))
  {
    if i > 0 {
      OneWatchPerUser(cfg, run, i - 1);
      assert run[..i][..i - 1] == run[..i - 1];
      StepKeepsLinksUnique(cfg, After(cfg, run[..i - 1]), run[i - 1]);
    }
  }

  // ---------------------------------------------------------------- closing

  predicate IsClosedSlice(x: Slice) { x.row.Some? && x.row.value.isClosed }

  lemma ClosedIgnores(cfg: Settings, x: Slice, action: Action, next: int, now: Time)
    requires SliceInv(x, next, now) && Sensible(x, action, now) && IsClosedSlice(x)
    ensures !action.Observe? && IsClosedSlice(Act(cfg, x, action, next))
  {
  }

  lemma {:induction false} ClosedStaysClosed(cfg: Settings, run: seq<Event>, i: nat, j: nat, a: AuctionId)
    requires Valid(cfg, run) && i <= j <= |run| && IsClosedSlice(SliceAt(cfg, run, i, a))
    ensures IsClosedSlice(SliceAt(cfg, run, j, a))
    decreases j
  {
    hide *;
    if i < j {
      ClosedStaysClosed(cfg, run, i, j - 1, a);
      ClosedNext(cfg, run, j - 1, a);
    }
  }

  lemma ClosedNext(cfg: Settings, run: seq<Event>, k: nat, a: AuctionId)
    requires Valid(cfg, run) && k < |run| && IsClosedSlice(SliceAt(cfg, run, k, a))
    ensures IsClosedSlice(SliceAt(cfg, run, k + 1, a)) && !ActionAt(cfg, run, k, a).Observe?
  {
    hide *;
    SliceStep(cfg, run, k, a);
    ClosedIgnores(cfg, SliceAt(cfg, run, k, a), ActionAt(cfg, run, k, a), After(cfg, run[..k]).nextSnapshot,
                  run[k].now);
  }

  /** Closed is final: no poll observes the auction again, and nothing switches its monitoring on. */
  lemma ClosedIsFinal(cfg: Settings, run: seq<Event>, i: nat, j: nat, a: AuctionId)
    requires Valid(cfg, run) && i <= j < |run| && IsClosedSlice(SliceAt(cfg, run, i, a))
    ensures IsClosedSlice(SliceAt(cfg, run, j, a)) && !IsActive(SliceAt(cfg, run, j, a))
    ensures !ActionAt(cfg, run, j, a).Observe? && KindsAt(cfg, run, j, a) == []
  {
    ClosedStaysClosed(cfg, run, i, j, a);
    SliceStep(cfg, run, j, a);
    ClosedIgnores(cfg, SliceAt(cfg, run, j, a), ActionAt(cfg, run, j, a), After(cfg, run[..j]).nextSnapshot,
                  run[j].now);
  }

  /** A poll reports the closing exactly when it is the one that sees the auction closed, given a snapshot to
      compare with. */
  lemma ClosedDecidedIff(cfg: Settings, run: seq<Event>, i: nat, a: AuctionId)
    requires Valid(cfg, run) && i < |run| && ActionAt(cfg, run, i, a).Observe?
    ensures Closed in KindsAt(cfg, run, i, a) <==>
      SliceAt(cfg, run, i, a).snapshots != [] && ActionAt(cfg, run, i, a).state.isClosed
    ensures ActionAt(cfg, run, i, a).state.isClosed <==> IsClosedSlice(SliceAt(cfg, run, i + 1, a))
  {
    SliceStep(cfg, run, i, a);
    var x, s := SliceAt(cfg, run, i, a), ActionAt(cfg, run, i, a).state;
    var next := After(cfg, run[..i]).nextSnapshot;
    ObservedCloses(cfg, x, s, next, run[i].now);
    PreviousIsLast(x.snapshots);
    if x.snapshots != [] {
      var p := StateFromSnapshot(x.snapshots[|x.snapshots| - 1]);
      DecisionTable(p, s, PreviousPoll(x.row.value), s.observedAt, cfg.thresholds);
    }
  }

  /** One auction's closing is reported by at most one poll, and nothing is decided for it afterwards. */
  lemma ClosedIsReportedLast(cfg: Settings, run: seq<Event>, i: nat, j: nat, a: AuctionId)
    requires Valid(cfg, run) && i < j < |run| && Closed in KindsAt(cfg, run, i, a)
    ensures KindsAt(cfg, run, j, a) == []
  {
    ClosedDecidedIff(cfg, run, i, a);
    ClosedIsFinal(cfg, run, i + 1, j, a);
  }
}
