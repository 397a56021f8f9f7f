/** The whole system: every service call, tick and status change as one atomic step on the tables, and what all
    reachable states have in common. */
module Runs {
  import opened AuctionTypes
  import opened Diff
  import opened Polling
  import opened Tables
  import opened Engine
  import opened Monitoring
  import Watchlist
  import Ticking

  /** One committed transaction at `now`. Query results whose order the database leaves open, the fetched page,
      the clock and the rows that a poll's fan-out inserted are part of the event. */
  datatype Event =
    | Poll(auction: AuctionId, outcome: Outcome, now: Time, fan: Fan)
    | AddWatch(user: int, url: string, fetched: Option<AuctionState>, now: Time)
    | RemoveWatch(user: int, auction: AuctionId, now: Time)
    | EditLink(link: int, enabled: bool, name: Option<string>, now: Time)
    | Settle(note: int, status: Status, now: Time)
    | Tick(now: Time, due: seq<AuctionId>)
    | Purge(now: Time, before: Time)

  ghost function Step(cfg: Settings, db: Db, e: Event): Db {
    match e
    case Poll(a, o, now, fan) => PollTables(db, a, o, now, fan, cfg)
    case AddWatch(user, url, fetched, now) => Watchlist.AddStep(db, user, url, fetched, now)
    case RemoveWatch(user, a, now) => Watchlist.RemoveStep(db, user, a, now, cfg)
    case EditLink(l, enabled, name, _) =>
      if l in db.links then db.(links := db.links[l := db.links[l].(enabled := enabled, name := name)]) else db
    case Settle(id, status, now) =>
      if id in db.notes then db.(notes := db.notes[id := Settled(db.notes[id], status, now)]) else db
    case Tick(now, due) => Ticking.TickStep(db, now, due, cfg)
    case Purge(_, before) => Ticking.PurgeStep(db, before)
  }

  /** A step is possible when its query results are right, and an observation is not older than the previous
      poll of the same auction. */
  ghost predicate Enabled(cfg: Settings, db: Db, e: Event) {
    match e
    case Poll(a, o, now, _) =>
      Effective(db, a) && o.Observed? ==> PreviousPoll(db.auctions[a]) <= o.state.observedAt <= now
    case Settle(_, status, _) => !status.Pending?
    case Tick(now, due) => Ticking.IsDueList(db, now, cfg.dueLimit, due)
    case _ => true
  }

  /** A step whose fan-out is the one that `poll` computes for the watchers it lists. What does not depend on
      the notification table is proved without this. */
  ghost predicate Faithful(cfg: Settings, db: Db, e: Event) {
    e.Poll? ==>
      exists watchers ::
        && IsWatcherList(db, e.auction, watchers)
        && e.fan == FanOfPoll(db, e.auction, e.outcome, e.now, watchers, cfg)
  }

  /** The tables after a run that starts with an empty database. */
  ghost function After(cfg: Settings, run: seq<Event>): Db {
    if run == [] then EMPTY_DB else Step(cfg, After(cfg, run[..|run| - 1]), run[|run| - 1])
  }

  /** Step `k` is possible where it is taken, and the clock has not run backwards. */
  ghost predicate ValidAt(cfg: Settings, run: seq<Event>, k: nat)
    requires k < |run|
  {
    Enabled(cfg, After(cfg, run[..k]), run[k]) && (k > 0 ==> run[k - 1].now <= run[k].now)
  }

  ghost predicate Valid(cfg: Settings, run: seq<Event>) {
    cfg.Valid() && forall k :: 0 <= k < |run| ==> ValidAt(cfg, run, k)
  }

  lemma ValidPrefix(cfg: Settings, run: seq<Event>, i: nat)
    requires Valid(cfg, run) && i <= |run|
    ensures Valid(cfg, run[..i])
  {
    forall k | 0 <= k < i
      ensures ValidAt(cfg, run[..i], k)
    {
      assert ValidAt(cfg, run, k);
      assert run[..i][..k] == run[..k];
    }
  }

  /** Step `i` of a valid run. */
  lemma StepAt(cfg: Settings, run: seq<Event>, i: nat)
    requires Valid(cfg, run) && i < |run|
    ensures Valid(cfg, run[..i]) && Valid(cfg, run[..i + 1])
    ensures After(cfg, run[..i + 1]) == Step(cfg, After(cfg, run[..i]), run[i])
    ensures Enabled(cfg, After(cfg, run[..i]), run[i])
  {
    ValidPrefix(cfg, run, i);
    ValidPrefix(cfg, run, i + 1);
    assert ValidAt(cfg, run, i);
    assert run[..i + 1][..i] == run[..i];
  }

  // ---------------------------------------------------------------- one auction's share of a step

  /** What the tables say about one auction. */
  datatype Slice = Slice(row: Option<Auction>, snapshots: seq<Snapshot>)

  function SliceOf(db: Db, a: AuctionId): Slice {
    Slice(if a in db.auctions then Some(db.auctions[a]) else None, db.SnapshotsOf(a))
  }

  /** What a step does to one auction. */
  datatype Action =
    | Idle
    | Observe(state: AuctionState)
    | Fail(message: string, at: Time)
    | Halt(message: string)
    | Create(url: string, state: AuctionState, at: Time)
    | Resume(at: Time)
    | Reschedule(next: Time)
    | Abandon
    | Forget(before: Time)

  predicate IsActive(x: Slice) { x.row.Some? && x.row.value.monitoringActive }

  function AddNamedAction(db: Db, user: int, b: AuctionId, url: string, fetched: Option<AuctionState>, now: Time,
                          a: AuctionId): Action
  {
    if b != a then Idle
    else if a !in db.auctions then if fetched.None? then Idle else Create(url, fetched.value, now)
    else if db.auctions[a].isClosed || db.auctions[a].monitoringActive || Watchlist.LinksOf(db, user, a) != {} then Idle
    else Resume(now)
  }

  function AddAction(db: Db, user: int, url: string, fetched: Option<AuctionState>, now: Time, a: AuctionId): Action {
    var named := Watchlist.NamedAuction(url);
    if named.None? then Idle
    else AddNamedAction(db, user, named.value, Watchlist.CanonicalUrl(url), fetched, now, a)
  }

  function RemoveAction(cfg: Settings, db: Db, user: int, removed: AuctionId, now: Time, a: AuctionId): Action {
    var gone := Watchlist.LinksOf(db, user, a);
    if removed != a || user !in db.users || a !in db.auctions || gone == {} || HasWatcher(WithoutLinks(db, gone), a)
    then Idle
    else Reschedule(now + cfg.grace)
  }

  function PollAction(o: Outcome, now: Time): Action {
    match o
    case Observed(s) => Observe(s)
    case Retryable(message) => Fail(message, now)
    case Stopping(message) => Halt(message)
  }

  function ActionOn(cfg: Settings, db: Db, e: Event, a: AuctionId): Action {
    match e
    case Poll(b, o, now, _) =>
      if b != a || !Effective(db, a) then Idle else PollAction(o, now)
    case AddWatch(user, url, fetched, now) => AddAction(db, user, url, fetched, now, a)
    case RemoveWatch(user, removed, now) => RemoveAction(cfg, db, user, removed, now, a)
    case Tick(now, due) =>
      if a !in due || a !in db.auctions then Idle
      else if HasWatcher(db, a) then Reschedule(now + cfg.lockTtl)
      else Abandon
    case Purge(_, before) => Forget(before)
    case _ => Idle
  }

  function Act(cfg: Settings, x: Slice, action: Action, nextSnapshot: int): Slice {
    match action
    case Idle => x
    case Create(url, s, at) => Slice(Some(NewRow(url, s, at)), x.snapshots)
    case Forget(before) => Slice(x.row, Kept(x.snapshots, before))
    case _ =>
      if x.row.None? then x
      else
        var r := x.row.value;
        match action
        case Observe(s) =>
          Slice(Some(ObservedRow(r, x.snapshots, s, cfg.intervals)),
                if StoresSnapshot(x.snapshots, s) then x.snapshots + [SnapshotOf(nextSnapshot, s)] else x.snapshots)
        case Fail(message, at) => x.(row := Some(FailedRow(r, message, at, cfg)))
        case Halt(message) => x.(row := Some(Stopped(r).(lastError := Some(Truncated(message)))))
        case Resume(at) => x.(row := Some(r.(monitoringActive := true, nextPollAt := Some(at))))
        case Reschedule(next) => x.(row := Some(r.(nextPollAt := Some(next))))
        case _ => x.(row := Some(Stopped(r)))
  }

  lemma PollOn(cfg: Settings, db: Db, b: AuctionId, o: Outcome, now: Time, fan: Fan, a: AuctionId)
    ensures SliceOf(PollTables(db, b, o, now, fan, cfg), a)
         == Act(cfg, SliceOf(db, a), ActionOn(cfg, db, Poll(b, o, now, fan), a), db.nextSnapshot)
  {
    if b == a && Effective(db, a) {
      PollHere(cfg, db, o, now, fan, a);
    } else {
      PollElsewhere(cfg, db, b, o, now, fan, a);
    }
    hide PollTables, SliceOf, Act, Effective;
  }

  lemma PollHere(cfg: Settings, db: Db, o: Outcome, now: Time, fan: Fan, a: AuctionId)
    requires Effective(db, a)
    ensures SliceOf(PollTables(db, a, o, now, fan, cfg), a)
         == Act(cfg, SliceOf(db, a), PollAction(o, now), db.nextSnapshot)
  {
    hide ObservedRow, FailedRow, StoresSnapshot, SnapshotOf;
  }

  lemma PollElsewhere(cfg: Settings, db: Db, b: AuctionId, o: Outcome, now: Time, fan: Fan, a: AuctionId)
    requires b != a || !Effective(db, a)
    ensures SliceOf(PollTables(db, b, o, now, fan, cfg), a) == SliceOf(db, a)
  {
    hide ObservedRow, FailedRow, StoresSnapshot, SnapshotOf;
  }

  lemma AddOn(cfg: Settings, db: Db, user: int, url: string, fetched: Option<AuctionState>, now: Time, a: AuctionId)
    ensures SliceOf(Watchlist.AddStep(db, user, url, fetched, now), a)
         == Act(cfg, SliceOf(db, a), AddAction(db, user, url, fetched, now, a), db.nextSnapshot)
  {
    var named := Watchlist.NamedAuction(url);
    if named.Some? {
      AddNamedOn(cfg, db, user, named.value, Watchlist.CanonicalUrl(url), fetched, now, a);
    }
  }

  lemma AddNamedOn(cfg: Settings, db: Db, user: int, b: AuctionId, url: string, fetched: Option<AuctionState>,
                   now: Time, a: AuctionId)
    ensures SliceOf(Watchlist.AddNamed(db, user, b, url, fetched, now), a)
         == Act(cfg, SliceOf(db, a), AddNamedAction(db, user, b, url, fetched, now, a), db.nextSnapshot)
  {
    if b != a {
      AddNamedElsewhere(db, user, b, url, fetched, now, a);
    } else if b in db.auctions || fetched.Some? {
      ReadyHere(db, user, b, url, fetched, now);
      LinkHere(Watchlist.WithUserAndAuction(db, user, b, url, fetched, now), user, b, now);
    }
  }

  lemma ReadyHere(db: Db, user: int, a: AuctionId, url: string, fetched: Option<AuctionState>, now: Time)
    requires a in db.auctions || fetched.Some?
    ensures
      var ready := Watchlist.WithUserAndAuction(db, user, a, url, fetched, now);
      && ready.auctions[a] == (if a in db.auctions then db.auctions[a] else NewRow(url, fetched.value, now))
      && ready.SnapshotsOf(a) == db.SnapshotsOf(a)
      && Watchlist.LinksOf(ready, user, a) == Watchlist.LinksOf(db, user, a)
  {
  }

  lemma LinkHere(ready: Db, user: int, a: AuctionId, now: Time)
    requires a in ready.auctions
    ensures
      var db' := Watchlist.WithLink(ready, user, a, now);
      var r := ready.auctions[a];
      && a in db'.auctions && db'.SnapshotsOf(a) == ready.SnapshotsOf(a)
      && db'.auctions[a] == if r.isClosed || Watchlist.LinksOf(ready, user, a) != {} then r
                            else Watchlist.Resumed(r, now)
  {
  }

  lemma AddNamedElsewhere(db: Db, user: int, b: AuctionId, url: string, fetched: Option<AuctionState>, now: Time,
                          a: AuctionId)
    requires b != a
    ensures SliceOf(Watchlist.AddNamed(db, user, b, url, fetched, now), a) == SliceOf(db, a)
  {
  }

  /** `add_watch` adds at most one link, for a user who has none. */
  lemma AddNamedLinks(db: Db, user: int, a: AuctionId, url: string, fetched: Option<AuctionState>, now: Time)
    ensures
      var db' := Watchlist.AddNamed(db, user, a, url, fetched, now);
      && db'.notes == db.notes && db'.nextNote == db.nextNote
      && db'.nextLink in {db.nextLink, db.nextLink + 1}
      && db'.links == if db'.nextLink == db.nextLink then db.links
                      else db.links[db.nextLink := Link(user, a, true, None)]
    ensures
      Watchlist.AddNamed(db, user, a, url, fetched, now).nextLink != db.nextLink ==>
        Watchlist.LinksOf(db, user, a) == {}
  {
    if a in db.auctions || fetched.Some? {
      var ready := Watchlist.WithUserAndAuction(db, user, a, url, fetched, now);
      assert Watchlist.LinksOf(ready, user, a) == Watchlist.LinksOf(db, user, a);
    }
  }

  lemma RemoveOn(cfg: Settings, db: Db, user: int, removed: AuctionId, now: Time, a: AuctionId)
    ensures SliceOf(Watchlist.RemoveStep(db, user, removed, now, cfg), a)
         == Act(cfg, SliceOf(db, a), RemoveAction(cfg, db, user, removed, now, a), db.nextSnapshot)
  {
  }

  lemma TickOn(cfg: Settings, db: Db, now: Time, due: seq<AuctionId>, a: AuctionId)
    ensures SliceOf(Ticking.TickStep(db, now, due, cfg), a)
         == Act(cfg, SliceOf(db, a), ActionOn(cfg, db, Tick(now, due), a), db.nextSnapshot)
  {
  }

  /** Every step acts on every auction as its action says. */
  lemma StepOn(cfg: Settings, db: Db, e: Event, a: AuctionId)
    ensures SliceOf(Step(cfg, db, e), a) == Act(cfg, SliceOf(db, a), ActionOn(cfg, db, e, a), db.nextSnapshot)
  {
    match e
    case Poll(b, o, now, fan) => PollOn(cfg, db, b, o, now, fan, a);
    case AddWatch(user, url, fetched, now) => AddOn(cfg, db, user, url, fetched, now, a);
    case RemoveWatch(user, removed, now) => RemoveOn(cfg, db, user, removed, now, a);
    case Tick(now, due) => TickOn(cfg, db, now, due, a);
    case Purge(_, before) =>
    case EditLink(_, _, _, _) =>
    case Settle(_, _, _) =>
  }

  lemma SnapshotIdsAdvance(cfg: Settings, db: Db, e: Event, a: AuctionId)
    ensures db.nextSnapshot <= Step(cfg, db, e).nextSnapshot
    ensures
      var action := ActionOn(cfg, db, e, a);
      action.Observe? && StoresSnapshot(db.SnapshotsOf(a), action.state) ==>
        db.nextSnapshot < Step(cfg, db, e).nextSnapshot
  {
    match e
    case Poll(b, o, now, fan) =>
    case AddWatch(user, url, fetched, now) =>
    case RemoveWatch(user, removed, now) =>
    case Tick(now, due) =>
    case Purge(_, before) =>
    case EditLink(_, _, _, _) =>
    case Settle(_, _, _) =>
  }

  // ---------------------------------------------------------------- the invariant of one auction

  /** An active auction is open and scheduled; the latest snapshot agrees with the row on every compared field;
      snapshots are in order and not newer than the last poll. */
  ghost predicate SliceInv(x: Slice, nextSnapshot: int, clock: Time) {
    && Chronological(x.snapshots)
    && (x.row.None? ==> x.snapshots == [])
    && (x.row.Some? ==>
          var r := x.row.value;
          && (r.monitoringActive ==> !r.isClosed && r.nextPollAt.Some?)
          && r.lastPolledAt.Some? && r.lastPolledAt.value <= clock
          && (x.snapshots != [] ==>
                var last := x.snapshots[|x.snapshots| - 1];
                && last.observedAt <= r.lastPolledAt.value
                && last.id < nextSnapshot
                && ComparedFields(StateFromSnapshot(last)) == ComparedInRow(r)))
  }

  lemma PreviousIsLast(snapshots: seq<Snapshot>)
    requires Chronological(snapshots)
    ensures PreviousState(snapshots)
         == if snapshots == [] then None else Some(StateFromSnapshot(snapshots[|snapshots| - 1]))
  {
    if snapshots != [] {
      LatestIsLast(snapshots);
    }
  }

  /** After an observation the row agrees with it on every compared field, whether or not it was stored. */
  lemma ObservationIsRecorded(r: Auction, snapshots: seq<Snapshot>, s: AuctionState, iv: Intervals)
    requires Chronological(snapshots)
    requires snapshots != [] ==>
      ComparedFields(StateFromSnapshot(snapshots[|snapshots| - 1])) == ComparedInRow(r)
    ensures ComparedInRow(ObservedRow(r, snapshots, s, iv)) == ComparedFields(s)
  {
    PreviousIsLast(snapshots);
    if snapshots != [] {
      ChangedIffFieldsDiffer(StateFromSnapshot(snapshots[|snapshots| - 1]), s);
    }
  }

  lemma PushKeepsOrder(snapshots: seq<Snapshot>, id: int, s: AuctionState)
    requires Chronological(snapshots)
    requires snapshots != [] ==>
      snapshots[|snapshots| - 1].observedAt <= s.observedAt && snapshots[|snapshots| - 1].id < id
    ensures Chronological(snapshots + [SnapshotOf(id, s)])
  {
  }

  lemma ObserveKeepsInv(cfg: Settings, x: Slice, s: AuctionState, next: int, next': int, clock: Time, now: Time)
    requires SliceInv(x, next, clock) && IsActive(x) && next <= next'
    requires PreviousPoll(x.row.value) <= s.observedAt <= now
    requires StoresSnapshot(x.snapshots, s) ==> next < next'
    ensures SliceInv(Act(cfg, x, Observe(s), next), next', now)
  {
    ObservationIsRecorded(x.row.value, x.snapshots, s, cfg.intervals);
    PushKeepsOrder(x.snapshots, next, s);
    SnapshotKeepsComparedFields(next, s);
  }

  lemma ForgetKeepsInv(cfg: Settings, x: Slice, before: Time, next: int, clock: Time)
    requires SliceInv(x, next, clock)
    ensures SliceInv(Act(cfg, x, Forget(before), next), next, clock)
  {
    var n := KeptIsSuffix(x.snapshots, before);
    if n < |x.snapshots| {
      assert x.snapshots[n..][|x.snapshots| - n - 1] == x.snapshots[|x.snapshots| - 1];
    }
  }

  /** Whether an action may happen: it comes at or before `now`, on a state the services let it act on. */
  ghost predicate Sensible(x: Slice, action: Action, now: Time) {
    match action
    case Observe(s) => IsActive(x) && PreviousPoll(x.row.value) <= s.observedAt <= now
    case Fail(_, at) => IsActive(x) && at <= now
    case Halt(_) => IsActive(x)
    case Create(_, s, at) => x.row.None? && at <= now
    case Resume(_) => x.row.Some? && !x.row.value.isClosed && !x.row.value.monitoringActive
    case Reschedule(_) => x.row.Some?
    case Abandon => IsActive(x)
    case _ => true
  }

  lemma ActionsAreSensible(cfg: Settings, db: Db, e: Event, a: AuctionId)
    requires Enabled(cfg, db, e)
    ensures Sensible(SliceOf(db, a), ActionOn(cfg, db, e, a), e.now)
  {
  }

  lemma ActKeepsInv(cfg: Settings, x: Slice, action: Action, next: int, next': int, clock: Time, now: Time)
    requires SliceInv(x, next, clock) && clock <= now && next <= next' && Sensible(x, action, now)
    requires action.Observe? && StoresSnapshot(x.snapshots, action.state) ==> next < next'
    ensures SliceInv(Act(cfg, x, action, next), next', now)
  {
    match action
    case Observe(s) => ObserveKeepsInv(cfg, x, s, next, next', clock, now);
    case Forget(before) => ForgetKeepsInv(cfg, x, before, next, clock);
    case _ =>
  }

  /** Each step keeps the invariant of each auction. */
  lemma StepKeepsInv(cfg: Settings, db: Db, e: Event, a: AuctionId, clock: Time)
    requires SliceInv(SliceOf(db, a), db.nextSnapshot, clock) && Enabled(cfg, db, e) && clock <= e.now
    ensures SliceInv(SliceOf(Step(cfg, db, e), a), Step(cfg, db, e).nextSnapshot, e.now)
  {
    StepOn(cfg, db, e, a);
    SnapshotIdsAdvance(cfg, db, e, a);
    ActionsAreSensible(cfg, db, e, a);
    ActKeepsInv(cfg, SliceOf(db, a), ActionOn(cfg, db, e, a), db.nextSnapshot, Step(cfg, db, e).nextSnapshot, clock,
                e.now);
  }

  /** All reachable states satisfy the invariant: `i` is the number of steps taken, `clock` any time from then on
      to the next step. */
  lemma {:induction false} InvAlways(cfg: Settings, run: seq<Event>, i: nat, a: AuctionId, clock: Time)
    requires Valid(cfg, run) && i <= |run| && (i > 0 ==> run[i - 1].now <= clock)
    ensures SliceInv(SliceOf(After(cfg, run[..i]), a), After(cfg, run[..i]).nextSnapshot, clock)
  {
    if i > 0 {
      StepAt(cfg, run, i - 1);
      ClockAt(cfg, run, i - 1);
      InvAlways(cfg, run, i - 1, a, run[i - 1].now);
      StepKeepsInv(cfg, After(cfg, run[..i - 1]), run[i - 1], a, run[i - 1].now);
      LaterKeepsInv(SliceOf(After(cfg, run[..i]), a), After(cfg, run[..i]).nextSnapshot, run[i - 1].now, clock);
    }
  }

  lemma LaterKeepsInv(x: Slice, next: int, clock: Time, later: Time)
    requires SliceInv(x, next, clock) && clock <= later
    ensures SliceInv(x, next, later)
  {
  }

  lemma ClockAt(cfg: Settings, run: seq<Event>, i: nat)
    requires Valid(cfg, run) && i < |run|
    ensures i > 0 ==> run[i - 1].now <= run[i].now
  {
    assert ValidAt(cfg, run, i);
  }
}
