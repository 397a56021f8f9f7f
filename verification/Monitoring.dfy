/** One poll of one auction (app/services/monitoring_service.py). */
module Monitoring {
  import opened AuctionTypes
  import opened Backoff
  import opened Diff
  import opened Notifications
  import opened Polling
  import opened Tables
  import opened Engine

  /** What fetching and parsing the page gave: a state, an error that is retried with backoff (rate limit,
      missing or malformed page data), or one that stops monitoring (anti-bot page, auction gone). */
  datatype Outcome = Observed(state: AuctionState) | Retryable(message: string) | Stopping(message: string)

  datatype PollResult = NotFound | Inactive | Polled | FetchFailed | StoppedByError

  // ---------------------------------------------------------------- the poll as a function of the tables

  function PreviousState(snapshots: seq<Snapshot>): Option<AuctionState> {
    var latest := Latest(snapshots);
    if latest.None? then None else Some(StateFromSnapshot(latest.value))
  }

  function PollFlags(snapshots: seq<Snapshot>, s: AuctionState): Flags {
    FlagsOf(PreviousState(snapshots), s, PRICE_CHANGE_THRESHOLD)
  }

  /** Whether the poll stores a snapshot. */
  predicate StoresSnapshot(snapshots: seq<Snapshot>, s: AuctionState) {
    PreviousState(snapshots).None? || PollFlags(snapshots, s).HasChanges()
  }

  function PreviousPoll(r: Auction): Time {
    if r.lastPolledAt.Some? then r.lastPolledAt.value else r.createdAt
  }

  function KindsAfter(previousPoll: Time, snapshots: seq<Snapshot>, s: AuctionState, th: Thresholds): seq<Kind> {
    KindsOf(PreviousState(snapshots).Some?, s, PollFlags(snapshots, s), previousPoll, s.observedAt, th)
  }

  function DecisionsAfter(previousPoll: Time, snapshots: seq<Snapshot>, s: AuctionState, th: Thresholds)
    : seq<Decision>
  {
    Tagged(KindsAfter(previousPoll, snapshots, s, th), PreviousState(snapshots), s)
  }

  function DecidedKinds(r: Auction, snapshots: seq<Snapshot>, s: AuctionState, th: Thresholds): seq<Kind> {
    KindsAfter(PreviousPoll(r), snapshots, s, th)
  }

  function Decisions(r: Auction, snapshots: seq<Snapshot>, s: AuctionState, th: Thresholds): seq<Decision> {
    DecisionsAfter(PreviousPoll(r), snapshots, s, th)
  }

  /** The row once its error is cleared and a change is recorded. */
  function DigestedRow(r: Auction, stores: bool, s: AuctionState): Auction {
    var cleared := r.(consecutiveErrors := 0, lastError := None);
    if stores then Updated(cleared, s) else cleared
  }

  lemma DigestKeepsUrl(r: Auction, stores: bool, s: AuctionState)
    ensures DigestedRow(r, stores, s).url == r.url
  {
  }

  function ScheduledRow(r: Auction, s: AuctionState, iv: Intervals): Auction {
    (if s.isClosed then Stopped(r) else r.(nextPollAt := Some(NextPollAt(s, iv))))
    .(lastPolledAt := Some(s.observedAt))
  }

  function ObservedRow(r: Auction, snapshots: seq<Snapshot>, s: AuctionState, iv: Intervals): Auction {
    ScheduledRow(DigestedRow(r, StoresSnapshot(snapshots, s), s), s, iv)
  }

  /** `_backoff` */
  function BackoffFor(errors: int, cfg: Settings): int { Wait(errors, cfg.backoffBase, cfg.backoffMax) }

  function FailedRow(r: Auction, message: string, now: Time, cfg: Settings): Auction {
    var errors := r.consecutiveErrors + 1;
    var counted := r.(consecutiveErrors := errors, lastError := Some(Truncated(message)),
                      nextPollAt := Some(now + BackoffFor(errors, cfg)));
    if errors >= cfg.maxErrors then Stopped(counted) else counted
  }

  function SnapshotIdFor(db: Db, a: AuctionId, s: AuctionState): Option<int> {
    if StoresSnapshot(db.SnapshotsOf(a), s) then Some(db.nextSnapshot) else None
  }

  function BatchFor(db: Db, a: AuctionId, s: AuctionState, now: Time, cfg: Settings): Batch
    requires a in db.auctions
  {
    Batch(SnapshotIdFor(db, a, s), db.auctions[a].url, db.links, cfg.render, now)
  }

  lemma PollDecisionsKeyed(db: Db, a: AuctionId, s: AuctionState, th: Thresholds)
    requires a in db.auctions
    ensures AllKeyed(Decisions(db.auctions[a], db.SnapshotsOf(a), s, th), SnapshotIdFor(db, a, s))
  {
    EveryDecisionHasKey(PreviousState(db.SnapshotsOf(a)), s, PreviousPoll(db.auctions[a]), s.observedAt, th,
                        SnapshotIdFor(db, a, s));
  }

  /** The fan-out of a successful poll. */
  ghost function PollFan(db: Db, a: AuctionId, s: AuctionState, now: Time, watchers: seq<int>, cfg: Settings): Fan
    requires a in db.auctions
  {
    var decisions := Decisions(db.auctions[a], db.SnapshotsOf(a), s, cfg.thresholds);
    var b := BatchFor(db, a, s, now, cfg);
    var start := Fan(db.notes, db.nextNote, []);
    PollDecisionsKeyed(db, a, s, cfg.thresholds);
    ProductKeyable(watchers, decisions, b);
    if decisions != [] && watchers != [] then FanOut(start, Jobs(watchers, decisions), b) else start
  }

  /** The tables after a successful poll whose fan-out gave `fan`. */
  function ObservedTables(db: Db, a: AuctionId, s: AuctionState, fan: Fan, cfg: Settings): Db
    requires a in db.auctions
  {
    var snapshots := db.SnapshotsOf(a);
    var stores := StoresSnapshot(snapshots, s);
    Db(db.auctions[a := ObservedRow(db.auctions[a], snapshots, s, cfg.intervals)],
       if stores then db.snapshots[a := snapshots + [SnapshotOf(db.nextSnapshot, s)]] else db.snapshots,
       db.links, db.users, fan.notes,
       if stores then db.nextSnapshot + 1 else db.nextSnapshot,
       db.nextLink, fan.next)
  }

  /** A poll that finds the auction monitored. */
  predicate Effective(db: Db, a: AuctionId) {
    a in db.auctions && db.auctions[a].monitoringActive
  }

  function PollTables(db: Db, a: AuctionId, o: Outcome, now: Time, fan: Fan, cfg: Settings): Db {
    if !Effective(db, a) then db
    else
      match o
      case Observed(s) => ObservedTables(db, a, s, fan, cfg)
      case Retryable(message) => db.(auctions := db.auctions[a := FailedRow(db.auctions[a], message, now, cfg)])
      case Stopping(message) =>
        db.(auctions := db.auctions[a := Stopped(db.auctions[a]).(lastError := Some(Truncated(message)))])
  }

  /** The fan-out of any poll; one that fails or finds nothing to do leaves the notifications alone. */
  ghost function FanOfPoll(db: Db, a: AuctionId, o: Outcome, now: Time, watchers: seq<int>, cfg: Settings): Fan {
    if Effective(db, a) && o.Observed? then PollFan(db, a, o.state, now, watchers, cfg)
    else Fan(db.notes, db.nextNote, [])
  }

  // ---------------------------------------------------------------- the service

  class MonitoringService {
    const session: Session
    const cfg: Settings
    const engine: NotificationEngine

    constructor (session: Session, cfg: Settings)
      ensures this.session == session && this.cfg == cfg && engine.session == session
    {
      this.session, this.cfg := session, cfg;
      engine := new NotificationEngine(session);
    }

    /** `_handle_error` */
    method HandleError(a: AuctionId, message: string, stop: bool, now: Time) returns (result: PollResult)
      requires a in session.auctions
      modifies session`auctions
      ensures session.auctions == old(session.auctions)[a :=
        if stop then Stopped(old(session.auctions)[a]).(lastError := Some(Truncated(message)))
        else FailedRow(old(session.auctions)[a], message, now, cfg)]
      ensures result == if stop then StoppedByError else FetchFailed
    {
      if stop {
        session.StopMonitoring(a);
        session.auctions := session.auctions[a := session.auctions[a].(lastError := Some(Truncated(message)))];
        return StoppedByError;
      }
      var backoff := BackoffFor(session.auctions[a].consecutiveErrors + 1, cfg);
      var errors := session.RecordError(a, message, now + backoff);
      if errors >= cfg.maxErrors {
        session.StopMonitoring(a);
      }
      return FetchFailed;
    }

    /** The part of `poll` that stores what changed. */
    method Record(a: AuctionId, s: AuctionState, diff: AuctionStateDiff) returns (snapshotId: Option<int>)
      requires a in session.auctions
      requires diff.View() == PollFlags(session.View().SnapshotsOf(a), s)
      modifies session`auctions, session`snapshots, session`nextSnapshot
      ensures
        var db := old(session.View());
        var stores := StoresSnapshot(db.SnapshotsOf(a), s);
        && snapshotId == (if stores then Some(db.nextSnapshot) else None)
        && session.auctions == (if stores then db.auctions[a := Updated(db.auctions[a], s)] else db.auctions)
        && session.snapshots == (if stores
             then db.snapshots[a := db.SnapshotsOf(a) + [SnapshotOf(db.nextSnapshot, s)]] else db.snapshots)
        && session.nextSnapshot == (if stores then db.nextSnapshot + 1 else db.nextSnapshot)
    {
      snapshotId := None;
      var previous := PreviousState(session.View().SnapshotsOf(a));
      var changed := previous.None? || diff.View().HasChanges();
      if changed {
        var id := session.CreateSnapshot(a, s);
        snapshotId := Some(id);
        session.UpdateFromState(a, s);
      }
    }

    /** The part of `poll` that schedules the next one. */
    method Schedule(a: AuctionId, s: AuctionState)
      requires a in session.auctions
      modifies session`auctions
      ensures session.auctions == old(session.auctions)[a := ScheduledRow(old(session.auctions)[a], s, cfg.intervals)]
    {
      var r := session.auctions[a];
      if s.isClosed {
        r := r.(monitoringActive := false);
        r := r.(nextPollAt := None);
      } else {
        var interval := PollingIntervalFor(s.UntilEnd(), cfg.intervals);
        r := r.(nextPollAt := Some(s.observedAt + interval));
      }
      r := r.(lastPolledAt := Some(s.observedAt));
      session.auctions := session.auctions[a := r];
    }

    /** `poll`; `watchers` is what the watcher query returns and `sends` what is handed to the queue. */
    method Poll(a: AuctionId, o: Outcome, now: Time, watchers: seq<int>) returns (result: PollResult, sends: seq<int>)
      requires engine.session == session
      requires IsWatcherList(session.View(), a, watchers)
      modifies session
      ensures
        var db := old(session.View());
        var fan := FanOfPoll(db, a, o, now, watchers, cfg);
        session.View() == PollTables(db, a, o, now, fan, cfg) && sends == fan.created
      ensures result == if a !in old(session.auctions) then NotFound
                        else if !old(session.auctions)[a].monitoringActive then Inactive
                        else if o.Observed? then Polled else if o.Stopping? then StoppedByError else FetchFailed
    {
      sends := [];
      if a !in session.auctions {
        return NotFound, sends;
      }
      if !session.auctions[a].monitoringActive {
        return Inactive, sends;
      }
      ghost var db := session.View();
      match o {
        case Retryable(message) =>
          result := HandleError(a, message, false, now);
        case Stopping(message) =>
          result := HandleError(a, message, true, now);
        case Observed(s) =>
          sends := Observe(a, s, now, watchers);
          result := Polled;
      }
    }

    /** The part of `poll` that clears the error, compares with the latest snapshot, records a change and
        evaluates it. */
    method Compare(a: AuctionId, s: AuctionState)
      returns (snapshotId: Option<int>, decisions: seq<Decision>)
      requires a in session.auctions
      modifies session`auctions, session`snapshots, session`nextSnapshot
      ensures
        var db := old(session.View());
        var stores := StoresSnapshot(db.SnapshotsOf(a), s);
        && snapshotId == SnapshotIdFor(db, a, s)
        && session.auctions == db.auctions[a := DigestedRow(db.auctions[a], stores, s)]
        && session.snapshots == (if stores
             then db.snapshots[a := db.SnapshotsOf(a) + [SnapshotOf(db.nextSnapshot, s)]] else db.snapshots)
        && session.nextSnapshot == (if stores then db.nextSnapshot + 1 else db.nextSnapshot)
        && decisions == Decisions(db.auctions[a], db.SnapshotsOf(a), s, cfg.thresholds)
    {
      var previousPoll := PreviousPoll(session.auctions[a]);
      session.ClearError(a);
      var previous := PreviousState(session.View().SnapshotsOf(a));
      var diff := DiffStates(previous, s, PRICE_CHANGE_THRESHOLD);
      snapshotId := Record(a, s, diff);
      decisions := EvaluateNotifications(previous, s, diff, previousPoll, s.observedAt, cfg.thresholds);
    }

    /** The body of `poll` after a successful fetch. */
    method Observe(a: AuctionId, s: AuctionState, now: Time, watchers: seq<int>) returns (sends: seq<int>)
      requires engine.session == session && a in session.auctions
      modifies session
      ensures
        var db := old(session.View());
        var fan := PollFan(db, a, s, now, watchers, cfg);
        session.View() == ObservedTables(db, a, s, fan, cfg) && sends == fan.created
    {
      hide PollFan, Decisions, ScheduledRow, StoresSnapshot, DigestedRow, SnapshotIdFor, SnapshotOf;
      ghost var db := session.View();
      var snapshotId, decisions := Compare(a, s);
      DigestKeepsUrl(db.auctions[a], StoresSnapshot(db.SnapshotsOf(a), s), s);
      sends := Notify(db, a, s, decisions, watchers, snapshotId, now);
      Schedule(a, s);
    }

    /** The fan-out part of `poll`, on the tables as `db` had them before the poll. */
    method Notify(ghost db: Db, a: AuctionId, s: AuctionState, decisions: seq<Decision>, watchers: seq<int>,
                  snapshotId: Option<int>, now: Time)
      returns (sends: seq<int>)
      requires engine.session == session
      requires a in session.auctions && a in db.auctions && session.auctions[a].url == db.auctions[a].url
      requires session.notes == db.notes && session.nextNote == db.nextNote && session.links == db.links
      requires decisions == Decisions(db.auctions[a], db.SnapshotsOf(a), s, cfg.thresholds)
      requires snapshotId == SnapshotIdFor(db, a, s)
      modifies session`notes, session`nextNote
      ensures
        var fan := PollFan(db, a, s, now, watchers, cfg);
        sends == fan.created && session.notes == fan.notes && session.nextNote == fan.next
    {
      PollDecisionsKeyed(db, a, s, cfg.thresholds);
      sends := [];
      if decisions != [] && watchers != [] {
        sends := engine.CreateJobs(decisions, watchers, snapshotId, session.auctions[a].url, cfg.render, now);
      }
    }
  }
}
