/** Adding and removing watches (app/services/auction_service.py). */
module Watchlist {
  import opened AuctionTypes
  import opened Tables
  import opened Validation

  datatype AddResult = BadUrl | FetchError | AuctionClosed | AlreadyWatched | Added

  datatype RemoveResult = NotFound | Removed

  /** The auction a URL names, if `add_watch` accepts it: the id is read from the canonical form. */
  function NamedAuction(url: string): Option<AuctionId> {
    match ValidateAuctionUrl(url)
    case Accepted(canonical) =>
      (match ExtractAuctionId(canonical) case Accepted(id) => Some(id) case _ => None)
    case _ => None
  }

  function CanonicalUrl(url: string): string
    requires NamedAuction(url).Some?
  {
    ValidateAuctionUrl(url).text
  }

  /** Every auction can be named by its canonical URL, as long as that is not too long. */
  lemma EveryIdIsNamed(id: AuctionId)
    requires IsId(id) && |Canonical(id)| <= MAX_URL_LEN
    ensures NamedAuction(Canonical(id)) == Some(id)
  {
    CanonicalIsPlain(id);
    RecognizedIsAccepted(Canonical(id), id);
    NamedByOwnForm(Canonical(id), id);
  }

  lemma NamedByOwnForm(url: string, id: AuctionId)
    requires ValidateAuctionUrl(url) == Accepted(url) && ExtractAuctionId(url) == Accepted(id)
    ensures NamedAuction(url) == Some(id)
  {
  }

  /** At most one link by `uq_user_auction`. */
  function LinksOf(db: Db, user: int, a: AuctionId): set<int> {
    set l | l in db.links && db.links[l].user == user && db.links[l].auction == a
  }

  /** The first half of `add_watch`: the user and the auction exist afterwards. */
  function WithUserAndAuction(db: Db, user: int, a: AuctionId, url: string, s: Option<AuctionState>, now: Time)
    : (ready: Db)
    requires a in db.auctions || s.Some?
    ensures a in ready.auctions
  {
    var known := if user in db.users then db else db.(users := db.users[user := true]);
    if a in known.auctions then known else known.(auctions := known.auctions[a := NewRow(url, s.value, now)])
  }

  function Resumed(r: Auction, now: Time): Auction {
    if r.monitoringActive then r else r.(monitoringActive := true, nextPollAt := Some(now))
  }

  /** The second half: a link, and monitoring resumed, unless the auction is closed or already watched. */
  function WithLink(db: Db, user: int, a: AuctionId, now: Time): Db
    requires a in db.auctions
  {
    if db.auctions[a].isClosed || LinksOf(db, user, a) != {} then db
    else
      db.(links := db.links[db.nextLink := Link(user, a, true, None)],
          nextLink := db.nextLink + 1,
          auctions := db.auctions[a := Resumed(db.auctions[a], now)])
  }

  function AddNamed(db: Db, user: int, a: AuctionId, url: string, fetched: Option<AuctionState>, now: Time): Db {
    if a !in db.auctions && fetched.None? then db
    else WithLink(WithUserAndAuction(db, user, a, url, fetched, now), user, a, now)
  }

  /** What `add_watch` reports for an auction it understood. */
  function AddResultOf(db: Db, user: int, a: AuctionId, fetched: Option<AuctionState>): AddResult {
    if a !in db.auctions && fetched.None? then FetchError
    else if (if a in db.auctions then db.auctions[a].isClosed else fetched.value.isClosed) then AuctionClosed
    else if LinksOf(db, user, a) != {} then AlreadyWatched
    else Added
  }

  /** `add_watch`. `fetched` is what the provider gives for a new auction; `None` is an exception, after which
      nothing is committed. */
  function AddStep(db: Db, user: int, url: string, fetched: Option<AuctionState>, now: Time): Db {
    var named := NamedAuction(url);
    if named.None? then db else AddNamed(db, user, named.value, CanonicalUrl(url), fetched, now)
  }

  /** `remove_watch` */
  function RemoveStep(db: Db, user: int, a: AuctionId, now: Time, cfg: Settings): Db {
    var gone := LinksOf(db, user, a);
    if user !in db.users || a !in db.auctions || gone == {} then db
    else
      var left := WithoutLinks(db, gone);
      if HasWatcher(left, a) then left
      else left.(auctions := left.auctions[a := left.auctions[a].(nextPollAt := Some(now + cfg.grace))])
  }

  predicate IsWatchedBy(db: Db, user: int, a: AuctionId) {
    exists l :: l in db.links && db.links[l].user == user && db.links[l].auction == a
  }

  predicate IsWatchedByOthers(db: Db, user: int, a: AuctionId) {
    exists l :: l in db.links && db.links[l].user != user && db.links[l].auction == a
  }

  /** What the reported outcome says about the tables: a new link, or none because the page could not be fetched (and no
      row was made), or because the auction is closed, or because the user had one. */
  lemma OutcomeTellsWhatHappened(db: Db, user: int, a: AuctionId, url: string, fetched: Option<AuctionState>, now: Time)
    ensures
      var db', result := AddNamed(db, user, a, url, fetched, now), AddResultOf(db, user, a, fetched);
      && db'.nextLink == (if result == Added then db.nextLink + 1 else db.nextLink)
      && db'.links == (if result == Added then db.links[db.nextLink := Link(user, a, true, None)] else db.links)
      && (result == FetchError <==> a !in db'.auctions) && (result == FetchError ==> db' == db)
      && (result == AuctionClosed <==> a in db'.auctions && db'.auctions[a].isClosed)
      && (result == AlreadyWatched <==> a in db'.auctions && !db'.auctions[a].isClosed && IsWatchedBy(db, user, a))
  {
    if a in db.auctions || fetched.Some? {
      var ready := WithUserAndAuction(db, user, a, url, fetched, now);
      SameLinks(db, ready, user, a);
      LinkedIff(db, user, a);
      hide LinksOf;
    }
  }

  /** Which watch `remove_watch` removes, from any state: that of a known user and auction, with its notifications; no
      other watch or notification, user or snapshot changes. */
  lemma RemoveIsExact(db: Db, user: int, a: AuctionId, now: Time, cfg: Settings)
    ensures
      var db' := RemoveStep(db, user, a, now, cfg);
      && (forall l :: l in db'.links <==>
            && l in db.links
            && !(user in db.users && a in db.auctions && db.links[l].user == user && db.links[l].auction == a))
      && (forall l :: l in db'.links ==> db'.links[l] == db.links[l])
      && (forall id :: id in db'.notes <==>
            id in db.notes && (db.notes[id].key.link in db.links ==> db.notes[id].key.link in db'.links))
      && (forall id :: id in db'.notes ==> db'.notes[id] == db.notes[id])
      && db'.users == db.users && db'.snapshots == db.snapshots
  {
    var gone := LinksOf(db, user, a);
    var left := WithoutLinks(db, gone);
    assert RemoveStep(db, user, a, now, cfg).links
        == if user in db.users && a in db.auctions then left.links else db.links;
    assert gone == {} ==> left.notes == db.notes;
    hide HasWatcher;
  }

  /** If nobody else watches the auction it is due after the grace period, and otherwise it is left alone, as all other
      auctions are. */
  lemma LastLeavingSetsDue(db: Db, user: int, a: AuctionId, now: Time, cfg: Settings)
    ensures
      var last := user in db.users && a in db.auctions && IsWatchedBy(db, user, a) && !IsWatchedByOthers(db, user, a);
      RemoveStep(db, user, a, now, cfg).auctions
      == if last then db.auctions[a := db.auctions[a].(nextPollAt := Some(now + cfg.grace))] else db.auctions
  {
    LinkedIff(db, user, a);
    OthersLeft(db, user, a);
    hide HasWatcher, IsWatchedBy, IsWatchedByOthers, LinksOf;
  }

  lemma OthersLeft(db: Db, user: int, a: AuctionId)
    ensures HasWatcher(WithoutLinks(db, LinksOf(db, user, a)), a) <==> IsWatchedByOthers(db, user, a)
  {
    var left := WithoutLinks(db, LinksOf(db, user, a));
    if l :| l in left.links && left.links[l].auction == a {
      assert l in db.links && db.links[l].user != user && db.links[l].auction == a;
    }
    if l :| l in db.links && db.links[l].user != user && db.links[l].auction == a {
      assert l in left.links && left.links[l].auction == a;
    }
  }

  lemma LinkedIff(db: Db, user: int, a: AuctionId)
    ensures LinksOf(db, user, a) != {} <==> IsWatchedBy(db, user, a)
  {
    if LinksOf(db, user, a) != {} {
      var l := Member(LinksOf(db, user, a));
      assert l in db.links && db.links[l].user == user && db.links[l].auction == a;
    }
    if l :| l in db.links && db.links[l].user == user && db.links[l].auction == a {
      assert l in LinksOf(db, user, a);
    }
  }

  lemma Member<T>(s: set<T>) returns (x: T)
    requires s != {}
    ensures x in s
  {
    x :| x in s;
  }

  lemma ReadyLeavesTheRest(db: Db, user: int, a: AuctionId, url: string, s: Option<AuctionState>, now: Time)
    requires a in db.auctions || s.Some?
    ensures
      var ready := WithUserAndAuction(db, user, a, url, s, now);
      && ready.users == (if user in db.users then db.users else db.users[user := true])
      && ready.links == db.links && ready.snapshots == db.snapshots && ready.notes == db.notes
      && (a in db.auctions ==> ready.auctions == db.auctions)
      && (a !in db.auctions ==> ready.auctions == db.auctions[a := NewRow(url, s.value, now)])
  {
  }

  lemma LinkLeavesTheRest(ready: Db, user: int, a: AuctionId, now: Time)
    requires a in ready.auctions
    ensures
      var db', r := WithLink(ready, user, a, now), ready.auctions[a];
      && db'.users == ready.users && db'.snapshots == ready.snapshots && db'.notes == ready.notes
      && db'.auctions == if r.isClosed || r.monitoringActive || LinksOf(ready, user, a) != {} then ready.auctions
                         else ready.auctions[a := r.(monitoringActive := true, nextPollAt := Some(now))]
  {
    assert ready.auctions[a := ready.auctions[a]] == ready.auctions;
  }

  /** What else adding a watch changes: a user who is not known yet becomes an active one; of the known auctions only
      the one that is added, which a new watch switches on, due at once, if it was off; no snapshot or notification. */
  lemma AddLeavesTheRest(db: Db, user: int, a: AuctionId, url: string, fetched: Option<AuctionState>, now: Time,
                         b: AuctionId)
    requires a in db.auctions || fetched.Some?
    ensures
      var db' := AddNamed(db, user, a, url, fetched, now);
      && db'.users == (if user in db.users then db.users else db.users[user := true])
      && db'.snapshots == db.snapshots && db'.notes == db.notes
      && (b in db'.auctions <==> b in db.auctions || b == a)
      && (b in db.auctions && b != a ==> db'.auctions[b] == db.auctions[b])
    ensures a in db.auctions ==>
      var db', r := AddNamed(db, user, a, url, fetched, now), db.auctions[a];
      db'.auctions[a] == if AddResultOf(db, user, a, fetched) == Added && !r.monitoringActive
                         then r.(monitoringActive := true, nextPollAt := Some(now)) else r
  {
    var ready := WithUserAndAuction(db, user, a, url, fetched, now);
    ReadyLeavesTheRest(db, user, a, url, fetched, now);
    LinkLeavesTheRest(ready, user, a, now);
    SameLinks(db, ready, user, a);
    hide LinksOf, WithUserAndAuction, WithLink, NewRow;
  }

  lemma SameLinks(db: Db, db': Db, user: int, a: AuctionId)
    requires db.links == db'.links
    ensures LinksOf(db, user, a) == LinksOf(db', user, a)
  {
  }

  class AuctionService {
    const session: Session
    const cfg: Settings

    constructor (session: Session, cfg: Settings)
      ensures this.session == session && this.cfg == cfg
    {
      this.session, this.cfg := session, cfg;
    }

    method AddWatch(user: int, url: string, fetched: Option<AuctionState>, now: Time) returns (result: AddResult)
      modifies session
      ensures session.View() == AddStep(old(session.View()), user, url, fetched, now)
      ensures
        var named := NamedAuction(url);
        result == if named.None? then BadUrl else AddResultOf(old(session.View()), user, named.value, fetched)
      ensures result == Added <==> session.nextLink != old(session.nextLink)
    {
      var canonical := ValidateAuctionUrl(url);
      if !canonical.Accepted? {
        return BadUrl;
      }
      CanonicalFormKeepsId(url, canonical.text);
      result := AddById(user, ExtractAuctionId(canonical.text).text, canonical.text, fetched, now);
    }

    /** `add_watch` once the URL is understood. */
    method AddById(user: int, a: AuctionId, url: string, fetched: Option<AuctionState>, now: Time)
      returns (result: AddResult)
      modifies session
      ensures session.View() == AddNamed(old(session.View()), user, a, url, fetched, now)
      ensures result == AddResultOf(old(session.View()), user, a, fetched)
      ensures result == Added <==> session.nextLink != old(session.nextLink)
    {
      ghost var db := session.View();
      if a !in session.auctions && fetched.None? {
        return FetchError;
      }
      if user !in session.users {
        session.users := session.users[user := true];
      }
      if a !in session.auctions {
        session.CreateAuction(a, url, fetched.value, now);
      }
      SameLinks(db, session.View(), user, a);
      result := AddLink(user, a, now);
    }

    method AddLink(user: int, a: AuctionId, now: Time) returns (result: AddResult)
      requires a in session.auctions
      modifies session
      ensures session.View() == WithLink(old(session.View()), user, a, now)
      ensures
        var db := old(session.View());
        result == if db.auctions[a].isClosed then AuctionClosed
                  else if LinksOf(db, user, a) != {} then AlreadyWatched else Added
      ensures result == Added <==> session.nextLink != old(session.nextLink)
    {
      if session.auctions[a].isClosed {
        return AuctionClosed;
      }
      if LinksOf(session.View(), user, a) != {} {
        return AlreadyWatched;
      }
      var l := session.CreateLink(user, a);
      if !session.auctions[a].monitoringActive && !session.auctions[a].isClosed {
        session.ResumeMonitoring(a, now);
      }
      return Added;
    }

    method RemoveWatch(user: int, a: AuctionId, now: Time) returns (result: RemoveResult)
      modifies session
      ensures session.View() == RemoveStep(old(session.View()), user, a, now, cfg)
      ensures result == Removed <==>
        user in old(session.users) && a in old(session.auctions) && LinksOf(old(session.View()), user, a) != {}
    {
      if user !in session.users || a !in session.auctions {
        return NotFound;
      }
      var gone := LinksOf(session.View(), user, a);
      if gone == {} {
        return NotFound;
      }
      session.DeleteLinks(gone);
      if !HasWatcher(session.View(), a) {
        session.SetNextPollAt(a, now + cfg.grace);
      }
      return Removed;
    }
  }
}

/** The scheduler's tick (app/scheduler/scheduler.py). */
module Ticking {
  import opened AuctionTypes
  import opened Lists
  import opened Tables

  const PENDING_RECOVERY_DELAY: int := 5 * MINUTE

  predicate IsDue(db: Db, a: AuctionId, now: Time) {
    && a in db.auctions && db.auctions[a].monitoringActive && !db.auctions[a].isClosed
    && db.auctions[a].nextPollAt.Some? && db.auctions[a].nextPollAt.value <= now
  }

  /** When the due auctions are due. */
  function DueTimes(db: Db, now: Time): map<AuctionId, Time> {
    map a | a in db.auctions && IsDue(db, a, now) :: db.auctions[a].nextPollAt.value
  }

  /** The results `list_due` may return: the oldest due auctions, at most `limit`, oldest first; the query
      leaves ties open. */
  ghost predicate IsDueList(db: Db, now: Time, limit: nat, due: seq<AuctionId>) {
    IsLowest(DueTimes(db, now), limit, due)
  }

  /** When the pending notifications were created, of those created before the cutoff. */
  function PendingTimes(db: Db, cutoff: Time): map<int, Time> {
    map id | id in db.notes && db.notes[id].status.Pending? && db.notes[id].createdAt < cutoff
      :: db.notes[id].createdAt
  }

  /** The results `list_pending_older_than` may return. */
  ghost predicate IsPendingList(db: Db, cutoff: Time, ids: seq<int>) {
    IsLowest(PendingTimes(db, cutoff), 500, ids)
  }

  /** What one tick does to the row of a due auction. */
  function PickedRow(db: Db, a: AuctionId, now: Time, cfg: Settings): Auction
    requires a in db.auctions
  {
    if HasWatcher(db, a) then db.auctions[a].(nextPollAt := Some(now + cfg.lockTtl)) else Stopped(db.auctions[a])
  }

  function PickedAuctions(db: Db, due: seq<AuctionId>, now: Time, cfg: Settings): map<AuctionId, Auction> {
    map b | b in db.auctions :: if b in due then PickedRow(db, b, now, cfg) else db.auctions[b]
  }

  function TickStep(db: Db, now: Time, due: seq<AuctionId>, cfg: Settings): Db {
    var picked := db.(auctions := PickedAuctions(db, due, now, cfg));
    WithoutLinks(picked, FinalizedLinks(picked))
  }

  /** The auctions for which a poll is enqueued. */
  function Enqueued(db: Db, due: seq<AuctionId>): seq<AuctionId> {
    if due == [] then []
    else Enqueued(db, due[..|due| - 1]) + if HasWatcher(db, due[|due| - 1]) then [due[|due| - 1]] else []
  }

  function PurgeStep(db: Db, before: Time): Db {
    db.(snapshots := map a | a in db.snapshots :: Kept(db.snapshots[a], before))
  }

  class Scheduler {
    const session: Session
    const cfg: Settings

    constructor (session: Session, cfg: Settings)
      ensures this.session == session && this.cfg == cfg
    {
      this.session, this.cfg := session, cfg;
    }

    /** `_tick`; `due` and `pending` are what the two queries return, `polls` and `sends` what is enqueued. */
    method Tick(now: Time, due: seq<AuctionId>, pending: seq<int>) returns (polls: seq<AuctionId>, sends: seq<int>)
      requires IsDueList(session.View(), now, cfg.dueLimit, due)
      requires IsPendingList(TickStep(session.View(), now, due, cfg), now - PENDING_RECOVERY_DELAY, pending)
      modifies session
      ensures session.View() == TickStep(old(session.View()), now, due, cfg)
      ensures polls == Enqueued(old(session.View()), due) && sends == pending
    {
      ghost var db := session.View();
      polls := PickDue(now, due);
      session.DeleteLinks(FinalizedLinks(session.View()));
      sends := [];
      for i := 0 to |pending|
        invariant sends == pending[..i]
        invariant session.View() == TickStep(db, now, due, cfg)
      {
        sends := sends + [pending[i]];
      }
    }

    method PickDue(now: Time, due: seq<AuctionId>) returns (polls: seq<AuctionId>)
      requires Distinct(due) && forall a :: a in due ==> a in session.auctions
      modifies session`auctions
      ensures session.auctions == PickedAuctions(old(session.View()), due, now, cfg)
      ensures polls == Enqueued(old(session.View()), due)
    {
      ghost var db := session.View();
      polls := [];
      NothingPicked(db, now, cfg);
      hide PickedAuctions, PickedRow, Enqueued, HasWatcher, Distinct;
      for i := 0 to |due|
        invariant session.links == db.links
        invariant session.auctions == PickedAuctions(db, due[..i], now, cfg)
        invariant polls == Enqueued(db, due[..i])
      {
        var a := due[i];
        assert due[..i + 1] == due[..i] + [a];
        NotYetListed(due, i);
        PickOne(db, due[..i], a, now, cfg);
        SamePick(db, session.View(), a, now, cfg);
        var enqueue := Pick(a, now);
        if enqueue {
          polls := polls + [a];
        }
      }
      assert due[..|due|] == due;
    }

    /** One pass of the loop. */
    method Pick(a: AuctionId, now: Time) returns (enqueue: bool)
      requires a in session.auctions
      modifies session`auctions
      ensures session.auctions == old(session.auctions)[a := PickedRow(old(session.View()), a, now, cfg)]
      ensures enqueue <==> HasWatcher(old(session.View()), a)
    {
      if !HasWatcher(session.View(), a) {
        session.StopMonitoring(a);
        return false;
      }
      session.SetNextPollAt(a, now + cfg.lockTtl);
      return true;
    }
  }

  /** What `list_due` may return: of the due auctions, as many as the limit allows, and the `i`-th is the one with the
      `i`-th earliest time, counted from 0. */
  lemma DueListIsRanked(db: Db, now: Time, limit: nat, due: seq<AuctionId>)
    requires IsDueList(db, now, limit, due)
    ensures forall a :: a in DueTimes(db, now) <==>
      && a in db.auctions && db.auctions[a].monitoringActive && !db.auctions[a].isClosed
      && db.auctions[a].nextPollAt.Some? && db.auctions[a].nextPollAt.value <= now
    ensures forall a :: a in DueTimes(db, now) ==> db.auctions[a].nextPollAt == Some(DueTimes(db, now)[a])
    ensures IsRanked(DueTimes(db, now), limit, due)
  {
    LowestAreRanked(DueTimes(db, now), limit, due);
    hide IsRanked;
  }

  /** What `list_pending_older_than` may return: of the pending notifications created before the cutoff, all or 500, and
      the `i`-th is the one with the `i`-th earliest creation, counted from 0. */
  lemma PendingListIsRanked(db: Db, cutoff: Time, ids: seq<int>)
    requires IsPendingList(db, cutoff, ids)
    ensures forall id :: id in PendingTimes(db, cutoff) <==>
      id in db.notes && db.notes[id].status.Pending? && db.notes[id].createdAt < cutoff
    ensures forall id :: id in PendingTimes(db, cutoff) ==> PendingTimes(db, cutoff)[id] == db.notes[id].createdAt
    ensures IsRanked(PendingTimes(db, cutoff), 500, ids)
  {
    LowestAreRanked(PendingTimes(db, cutoff), 500, ids);
    hide IsRanked;
  }

  /** Both queries have a result in every state, so a tick is possible at any time. */
  lemma QueriesHaveResults(db: Db, now: Time, limit: nat, cutoff: Time)
    returns (due: seq<AuctionId>, ids: seq<int>)
    ensures IsDueList(db, now, limit, due) && IsPendingList(db, cutoff, ids)
  {
    due := LowestExist(DueTimes(db, now), limit);
    ids := LowestExist(PendingTimes(db, cutoff), 500);
  }

  /** A tick cleans up link `l`: its auction is closed, and no notification of it is pending. */
  lemma FinalizedIff(db: Db, l: int)
    requires l in db.links
    ensures l in FinalizedLinks(db) <==>
      && db.links[l].auction in db.auctions && db.auctions[db.links[l].auction].isClosed
      && !exists id :: id in db.notes && db.notes[id].key.link == l && db.notes[id].status.Pending?
  {
  }

  /** The cleanup of a tick, from any state: a watch goes exactly if its auction is closed and no notification of it is
      pending, and its notifications go with it; all other watches and notifications stay as they are. */
  lemma CleanupIsExact(db: Db, now: Time, due: seq<AuctionId>, cfg: Settings)
    ensures
      var db' := TickStep(db, now, due, cfg);
      && (forall l :: l in db'.links <==>
            && l in db.links
            && (db.links[l].auction in db.auctions && db.auctions[db.links[l].auction].isClosed ==>
                  exists id :: id in db.notes && db.notes[id].key.link == l && db.notes[id].status.Pending?))
      && (forall l :: l in db'.links ==> db'.links[l] == db.links[l])
      && (forall id :: id in db'.notes <==>
            id in db.notes && (db.notes[id].key.link in db.links ==> db.notes[id].key.link in db'.links))
      && (forall id :: id in db'.notes ==> db'.notes[id] == db.notes[id])
  {
    var picked := db.(auctions := PickedAuctions(db, due, now, cfg));
    forall l | l in db.links
      ensures l in FinalizedLinks(picked) <==>
        && db.links[l].auction in db.auctions && db.auctions[db.links[l].auction].isClosed
        && !exists id :: id in db.notes && db.notes[id].key.link == l && db.notes[id].status.Pending?
    {
      FinalizedIff(picked, l);
      PickedStaysOpen(db, due, now, cfg, db.links[l].auction);
    }
    assert forall l :: l in FinalizedLinks(picked) ==> l in db.links;
    hide FinalizedLinks, PickedAuctions;
  }

  lemma PickedStaysOpen(db: Db, due: seq<AuctionId>, now: Time, cfg: Settings, a: AuctionId)
    ensures a in PickedAuctions(db, due, now, cfg) <==> a in db.auctions
    ensures a in db.auctions ==> PickedAuctions(db, due, now, cfg)[a].isClosed == db.auctions[a].isClosed
  {
  }

  /** What a tick does to the auctions, from any state: those in its list that somebody watches move by the lock's
      lifetime, those that nobody watches stop, and nothing else changes. */
  lemma TickMovesExactly(db: Db, now: Time, due: seq<AuctionId>, cfg: Settings, a: AuctionId)
    requires a in db.auctions
    ensures
      var db' := TickStep(db, now, due, cfg);
      db'.auctions.Keys == db.auctions.Keys && db'.users == db.users && db'.snapshots == db.snapshots
    ensures a !in due ==> TickStep(db, now, due, cfg).auctions[a] == db.auctions[a]
    ensures a in due && (exists l :: l in db.links && db.links[l].auction == a) ==>
      TickStep(db, now, due, cfg).auctions[a] == db.auctions[a].(nextPollAt := Some(now + cfg.lockTtl))
    ensures a in due && (forall l :: l in db.links ==> db.links[l].auction != a) ==>
      TickStep(db, now, due, cfg).auctions[a] == db.auctions[a].(monitoringActive := false, nextPollAt := None)
  {
    assert PickedAuctions(db, due, now, cfg).Keys == db.auctions.Keys;
    assert PickedAuctions(db, due, now, cfg)[a] == if a in due then PickedRow(db, a, now, cfg) else db.auctions[a];
    hide PickedAuctions, FinalizedLinks;
  }

  /** The polls are enqueued in the order of the due list, each as often as it is listed: `at` lists the positions of
      the watched auctions in it. */
  lemma {:induction false} EnqueuedInOrder(db: Db, due: seq<AuctionId>) returns (at: seq<nat>)
    ensures |at| == |Enqueued(db, due)|
    ensures forall k :: 0 <= k < |at| ==> at[k] < |due| && Enqueued(db, due)[k] == due[at[k]]
    ensures forall j, k :: 0 <= j < k < |at| ==> at[j] < at[k]
    ensures forall i :: 0 <= i < |due| ==> (i in at <==> HasWatcher(db, due[i]))
  {
    at := [];
    if due != [] {
      var n := |due| - 1;
      at := EnqueuedInOrder(db, due[..n]);
      assert forall k :: 0 <= k < |at| ==> at[k] in at;
      if HasWatcher(db, due[n]) {
        at := at + [n];
      }
    }
  }

  /** A poll is enqueued for exactly the due auctions that somebody watches. */
  lemma {:induction false} EnqueuedIff(db: Db, due: seq<AuctionId>, a: AuctionId)
    ensures a in Enqueued(db, due) <==> a in due && HasWatcher(db, a)
  {
    if due != [] {
      var n := |due| - 1;
      EnqueuedIff(db, due[..n], a);
      assert due == due[..n] + [due[n]];
    }
  }

  lemma SamePick(db: Db, db': Db, a: AuctionId, now: Time, cfg: Settings)
    requires db.links == db'.links && a in db.auctions && a in db'.auctions && db.auctions[a] == db'.auctions[a]
    ensures HasWatcher(db, a) == HasWatcher(db', a) && PickedRow(db, a, now, cfg) == PickedRow(db', a, now, cfg)
  {
  }

  lemma NotYetListed(due: seq<AuctionId>, i: nat)
    requires Distinct(due) && i < |due|
    ensures due[i] !in due[..i]
  {
  }

  lemma NothingPicked(db: Db, now: Time, cfg: Settings)
    ensures PickedAuctions(db, [], now, cfg) == db.auctions && Enqueued(db, []) == []
  {
  }

  lemma PickOne(db: Db, before: seq<AuctionId>, a: AuctionId, now: Time, cfg: Settings)
    requires a in db.auctions && a !in before
    ensures PickedAuctions(db, before + [a], now, cfg)
         == PickedAuctions(db, before, now, cfg)[a := PickedRow(db, a, now, cfg)]
    ensures a in PickedAuctions(db, before, now, cfg) && PickedAuctions(db, before, now, cfg)[a] == db.auctions[a]
    ensures Enqueued(db, before + [a]) == if HasWatcher(db, a) then Enqueued(db, before) + [a] else Enqueued(db, before)
  {
    assert (before + [a])[..|before|] == before;
  }
}
