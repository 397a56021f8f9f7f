/** The rows that the services share, and the repositories that read and write them (app/models,
    app/repositories, app/services/state_mapper.py).

  `Db` is the contents of the database as a value; `Session` is the mutable store whose methods the services
  call. A service call is one transaction.
 */
module Tables {
  import opened AuctionTypes
  import opened Lists
  import opened Notifications
  import opened Polling

  datatype Settings = Settings(
    intervals: Intervals,
    thresholds: Thresholds,
    maxErrors: int,
    backoffBase: int,
    backoffMax: int,
    lockTtl: int,
    grace: int,
    dueLimit: nat,
    render: (Decision, string, Option<string>) -> string)
  {
    predicate Valid() {
      && intervals.NonNegative()
      && 0 <= backoffBase && 0 <= backoffMax && 0 <= lockTtl && 0 <= grace
    }
  }

  /** A row of `auctions`; its key is the external id. */
  datatype Auction = Auction(
    url: string,
    title: Option<string>,
    currentPrice: Option<int>,
    bidCount: Option<int>,
    startTime: Option<Time>,
    endTime: Option<Time>,
    buyNowPrice: Option<int>,
    quantity: Option<int>,
    isStore: Option<bool>,
    isClosed: bool,
    hasWinner: Option<bool>,
    monitoringActive: bool,
    nextPollAt: Option<Time>,
    lastPolledAt: Option<Time>,
    createdAt: Time,
    lastError: Option<string>,
    consecutiveErrors: int)

  function ComparedInRow(r: Auction): Compared {
    Compared(r.currentPrice, r.bidCount, r.endTime, r.buyNowPrice, r.isClosed, r.hasWinner)
  }

  datatype Snapshot = Snapshot(
    id: int,
    observedAt: Time,
    currentPrice: Option<int>,
    bidCount: Option<int>,
    endTime: Option<Time>,
    buyNowPrice: Option<int>,
    isClosed: Option<bool>,
    hasWinner: Option<bool>,
    newBid: Option<bool>)

  datatype Link = Link(user: int, auction: AuctionId, enabled: bool, name: Option<string>)

  datatype Status = Pending | Sent | Failed

  /** What `uq_sent_notification` ranges over. */
  datatype NoteKey = NoteKey(link: int, kind: Kind, key: Key)

  datatype Note = Note(key: NoteKey, text: Option<string>, status: Status, createdAt: Time, sentAt: Option<Time>)

  /** What `mark_sent` and `mark_failed` record. */
  function Settled(n: Note, status: Status, now: Time): Note {
    if status.Sent? then n.(status := Sent, sentAt := Some(now)) else n.(status := status)
  }

  /** The contents of the tables. Snapshots are listed per auction in the order of insertion; users are
      identified by their Telegram ids and mapped to `is_active`. */
  datatype Db = Db(
    auctions: map<AuctionId, Auction>,
    snapshots: map<AuctionId, seq<Snapshot>>,
    links: map<int, Link>,
    users: map<int, bool>,
    notes: map<int, Note>,
    nextSnapshot: int,
    nextLink: int,
    nextNote: int)
  {
    function SnapshotsOf(a: AuctionId): seq<Snapshot> {
      if a in snapshots then snapshots[a] else []
    }
  }

  const EMPTY_DB: Db := Db(map[], map[], map[], map[], map[], 0, 0, 0)

  // ---------------------------------------------------------------- rows from states

  /** `AuctionRepository.create` */
  function NewRow(url: string, s: AuctionState, now: Time): Auction {
    Auction(url, s.title, s.currentPrice, s.bidCount, s.startTime, s.endTime, s.buyNowPrice, s.quantity, s.isStore,
            s.isClosed, s.hasWinner, !s.isClosed, Some(now), Some(now), now, None, 0)
  }

  /** `AuctionRepository.update_from_state` */
  function Updated(r: Auction, s: AuctionState): Auction {
    r.(title := s.title, currentPrice := s.currentPrice, bidCount := s.bidCount, startTime := s.startTime,
       endTime := s.endTime, buyNowPrice := s.buyNowPrice, quantity := s.quantity, isStore := s.isStore,
       isClosed := s.isClosed, hasWinner := s.hasWinner, lastPolledAt := Some(s.observedAt))
  }

  function Stopped(r: Auction): Auction { r.(monitoringActive := false, nextPollAt := None) }

  function SnapshotOf(id: int, s: AuctionState): Snapshot {
    Snapshot(id, s.observedAt, s.currentPrice, s.bidCount, s.endTime, s.buyNowPrice, Some(s.isClosed), s.hasWinner,
             s.newBid)
  }

  function StateFromSnapshot(s: Snapshot): AuctionState {
    AuctionState("", None, s.currentPrice, s.bidCount, None, s.endTime, s.buyNowPrice, None, None,
                 s.isClosed == Some(true), s.hasWinner, s.newBid, s.observedAt)
  }

  /** Newest first by `(observed_at, id)`. */
  predicate Newer(a: Snapshot, b: Snapshot) {
    b.observedAt < a.observedAt || (a.observedAt == b.observedAt && b.id < a.id)
  }

  /** `SnapshotRepository.get_latest` */
  function Latest(snapshots: seq<Snapshot>): Option<Snapshot> {
    if snapshots == [] then None
    else
      var last := snapshots[|snapshots| - 1];
      var rest := Latest(snapshots[..|snapshots| - 1]);
      if rest.Some? && Newer(rest.value, last) then rest else Some(last)
  }

  /** `SnapshotRepository.purge_old` for one auction. */
  function Kept(snapshots: seq<Snapshot>, before: Time): seq<Snapshot> {
    if snapshots == [] then []
    else
      var last := snapshots[|snapshots| - 1];
      Kept(snapshots[..|snapshots| - 1], before) + if last.observedAt < before then [] else [last]
  }

  function Truncated(message: string): string {
    if |message| <= 1000 then message else message[..1000]
  }

  // ---------------------------------------------------------------- watchers and notifications

  predicate Watches(db: Db, l: int, a: AuctionId) {
    l in db.links && db.links[l].auction == a
  }

  /** `count_watchers` is not zero; links with notifications off count too. */
  predicate HasWatcher(db: Db, a: AuctionId) {
    exists l :: l in db.links && db.links[l].auction == a
  }

  /** `list_watchers`: links with notifications on, of active users. */
  predicate Notified(db: Db, l: int, a: AuctionId) {
    Watches(db, l, a) && db.links[l].enabled && db.links[l].user in db.users && db.users[db.links[l].user]
  }

  /** A result that `list_watchers` may return; the query sets no order. */
  ghost predicate IsWatcherList(db: Db, a: AuctionId, ls: seq<int>) {
    Distinct(ls) && forall l :: l in ls <==> Notified(db, l, a)
  }

  predicate HasKey(notes: map<int, Note>, key: NoteKey) {
    exists id :: id in notes && notes[id].key == key
  }

  /** Deleting links deletes their notifications (ON DELETE CASCADE). */
  function WithoutLinks(db: Db, gone: set<int>): Db {
    db.(links := db.links - gone,
        notes := map id | id in db.notes && db.notes[id].key.link !in gone :: db.notes[id])
  }

  predicate HasPendingNote(db: Db, l: int) {
    exists id :: id in db.notes && db.notes[id].key.link == l && db.notes[id].status.Pending?
  }

  /** The links that `delete_links_for_finalized_auctions` removes. */
  function FinalizedLinks(db: Db): set<int> {
    set l | l in db.links && db.links[l].auction in db.auctions && db.auctions[db.links[l].auction].isClosed
            && !HasPendingNote(db, l)
  }

  // ---------------------------------------------------------------- the repositories

  class Session {
    var auctions: map<AuctionId, Auction>
    var snapshots: map<AuctionId, seq<Snapshot>>
    var links: map<int, Link>
    var users: map<int, bool>
    var notes: map<int, Note>
    var nextSnapshot: int
    var nextLink: int
    var nextNote: int

    constructor ()
      ensures View() == EMPTY_DB
    {
      auctions, snapshots, links, users, notes := map[], map[], map[], map[], map[];
      nextSnapshot, nextLink, nextNote := 0, 0, 0;
    }

    function View(): Db
      reads this
    {
      Db(auctions, snapshots, links, users, notes, nextSnapshot, nextLink, nextNote)
    }

    // AuctionRepository

    method CreateAuction(a: AuctionId, url: string, s: AuctionState, now: Time)
      requires a !in auctions
      modifies this`auctions
      ensures auctions == old(auctions)[a := NewRow(url, s, now)]
    {
      auctions := auctions[a := Auction(url, s.title, s.currentPrice, s.bidCount, s.startTime, s.endTime,
        s.buyNowPrice, s.quantity, s.isStore, s.isClosed, s.hasWinner, !s.isClosed, Some(now), Some(now), now, None,
        0)];
    }

    method UpdateFromState(a: AuctionId, s: AuctionState)
      requires a in auctions
      modifies this`auctions
      ensures auctions == old(auctions)[a := Updated(old(auctions)[a], s)]
    {
      var r := auctions[a];
      r := r.(title := s.title, currentPrice := s.currentPrice, bidCount := s.bidCount);
      r := r.(startTime := s.startTime, endTime := s.endTime, buyNowPrice := s.buyNowPrice);
      r := r.(quantity := s.quantity, isStore := s.isStore, isClosed := s.isClosed, hasWinner := s.hasWinner);
      r := r.(lastPolledAt := Some(s.observedAt));
      auctions := auctions[a := r];
    }

    method SetNextPollAt(a: AuctionId, at: Time)
      modifies this`auctions
      ensures auctions
           == if a in old(auctions)
              then old(auctions)[a := old(auctions)[a].(nextPollAt := Some(at))] else old(auctions)
    {
      if a in auctions {
        auctions := auctions[a := auctions[a].(nextPollAt := Some(at))];
      }
    }

    method StopMonitoring(a: AuctionId)
      modifies this`auctions
      ensures auctions == if a in old(auctions) then old(auctions)[a := Stopped(old(auctions)[a])] else old(auctions)
    {
      if a in auctions {
        auctions := auctions[a := auctions[a].(monitoringActive := false, nextPollAt := None)];
      }
    }

    method ResumeMonitoring(a: AuctionId, now: Time)
      requires a in auctions
      modifies this`auctions
      ensures auctions == old(auctions)[a := old(auctions)[a].(monitoringActive := true, nextPollAt := Some(now))]
    {
      auctions := auctions[a := auctions[a].(monitoringActive := true, nextPollAt := Some(now))];
    }

    method RecordError(a: AuctionId, message: string, at: Time) returns (errors: int)
      modifies this`auctions
      ensures a !in old(auctions) ==> errors == 0 && auctions == old(auctions)
      ensures a in old(auctions) ==>
        && errors == old(auctions)[a].consecutiveErrors + 1
        && auctions == old(auctions)[a := old(auctions)[a].(
             consecutiveErrors := errors, lastError := Some(Truncated(message)), nextPollAt := Some(at))]
    {
      if a !in auctions {
        return 0;
      }
      var r := auctions[a];
      r := r.(consecutiveErrors := r.consecutiveErrors + 1);
      r := r.(lastError := Some(Truncated(message)), nextPollAt := Some(at));
      auctions := auctions[a := r];
      return r.consecutiveErrors;
    }

    method ClearError(a: AuctionId)
      modifies this`auctions
      ensures auctions == if a in old(auctions)
                          then old(auctions)[a := old(auctions)[a].(consecutiveErrors := 0, lastError := None)]
                          else old(auctions)
    {
      if a in auctions {
        auctions := auctions[a := auctions[a].(consecutiveErrors := 0, lastError := None)];
      }
    }

    // SnapshotRepository

    method CreateSnapshot(a: AuctionId, s: AuctionState) returns (id: int)
      modifies this`snapshots, this`nextSnapshot
      ensures id == old(nextSnapshot) && nextSnapshot == id + 1
      ensures snapshots == old(snapshots)[a := old(View()).SnapshotsOf(a) + [SnapshotOf(id, s)]]
    {
      id := nextSnapshot;
      var earlier := if a in snapshots then snapshots[a] else [];
      snapshots := snapshots[a := earlier + [SnapshotOf(id, s)]];
      nextSnapshot := nextSnapshot + 1;
    }

    method PurgeOld(before: Time)
      modifies this`snapshots
      ensures snapshots == map a | a in old(snapshots) :: Kept(old(snapshots)[a], before)
    {
      snapshots := map a | a in snapshots :: Kept(snapshots[a], before);
    }

    // UserAuctionRepository

    method CreateLink(user: int, a: AuctionId) returns (l: int)
      modifies this`links, this`nextLink
      ensures l == old(nextLink) && nextLink == l + 1
      ensures links == old(links)[l := Link(user, a, true, None)]
    {
      l := nextLink;
      links := links[l := Link(user, a, true, None)];
      nextLink := nextLink + 1;
    }

    method DeleteLinks(gone: set<int>)
      modifies this`links, this`notes
      ensures View() == WithoutLinks(old(View()), gone)
    {
      links := links - gone;
      notes := map id | id in notes && notes[id].key.link !in gone :: notes[id];
    }

    // NotificationRepository

    /** INSERT inside a savepoint; a conflict on the unique index gives `None` and leaves the table alone. The
        id sequence advances either way. */
    method Claim(key: NoteKey, now: Time) returns (id: Option<int>)
      modifies this`notes, this`nextNote
      ensures nextNote == old(nextNote) + 1
      ensures HasKey(old(notes), key) ==> id == None && notes == old(notes)
      ensures !HasKey(old(notes), key) ==>
        id == Some(old(nextNote)) && notes == old(notes)[old(nextNote) := Note(key, None, Pending, now, None)]
    {
      var newId := nextNote;
      nextNote := nextNote + 1;
      if HasKey(notes, key) {
        return None;
      }
      notes := notes[newId := Note(key, None, Pending, now, None)];
      return Some(newId);
    }

    method MarkSent(id: int, now: Time)
      modifies this`notes
      ensures notes == if id in old(notes) then old(notes)[id := Settled(old(notes)[id], Sent, now)] else old(notes)
    {
      if id in notes {
        notes := notes[id := notes[id].(status := Sent, sentAt := Some(now))];
      }
    }

    method MarkFailed(id: int)
      modifies this`notes
      ensures notes == if id in old(notes) then old(notes)[id := old(notes)[id].(status := Failed)] else old(notes)
    {
      if id in notes {
        notes := notes[id := notes[id].(status := Failed)];
      }
    }
  }

  // ---------------------------------------------------------------- facts about snapshots

  /** Snapshots in the order of their instants and ids. */
  ghost predicate Chronological(snapshots: seq<Snapshot>) {
    forall i, j :: 0 <= i < j < |snapshots| ==>
      snapshots[i].observedAt <= snapshots[j].observedAt && snapshots[i].id < snapshots[j].id
  }

  /** As long as the clock does not run backwards, the latest snapshot is the one inserted last. */
  lemma {:induction false} LatestIsLast(snapshots: seq<Snapshot>)
    requires Chronological(snapshots) && snapshots != []
    ensures Latest(snapshots) == Some(snapshots[|snapshots| - 1])
  {
    var init := snapshots[..|snapshots| - 1];
    if init != [] {
      LatestIsLast(init);
    }
  }

  /** The latest snapshot of any log: none is later, and of those at the same instant none has a larger id. */
  lemma {:induction false} LatestIsNewest(snapshots: seq<Snapshot>)
    requires snapshots != []
    ensures Latest(snapshots).Some? && Latest(snapshots).value in snapshots
    ensures
      var latest := Latest(snapshots).value;
      forall s :: s in snapshots ==>
        s.observedAt < latest.observedAt || (s.observedAt == latest.observedAt && s.id <= latest.id)
  {
    var n := |snapshots| - 1;
    assert snapshots == snapshots[..n] + [snapshots[n]];
    if n > 0 {
      LatestIsNewest(snapshots[..n]);
    }
  }

  /** A purge removes a prefix. */
  lemma {:induction false} KeptIsSuffix(snapshots: seq<Snapshot>, before: Time) returns (n: nat)
    requires Chronological(snapshots)
    ensures n <= |snapshots| && Kept(snapshots, before) == snapshots[n..]
  {
    n := 0;
    if snapshots != [] {
      var k := |snapshots| - 1;
      n := KeptIsSuffix(snapshots[..k], before);
      if snapshots[k].observedAt < before {
        if n < k {
          assert snapshots[..k][n..][0] == snapshots[n];
          NothingOldKept(snapshots[..k], before);
        }
        n := |snapshots|;
      }
    }
  }

  /** `result` lists the snapshots at the increasing positions `kept`, which are those not older than `before`. */
  ghost predicate Selects(snapshots: seq<Snapshot>, before: Time, kept: seq<nat>, result: seq<Snapshot>) {
    && |kept| == |result|
    && (forall k :: 0 <= k < |kept| ==> kept[k] < |snapshots| && result[k] == snapshots[kept[k]])
    && (forall j, k :: 0 <= j < k < |kept| ==> kept[j] < kept[k])
    && (forall i :: 0 <= i < |snapshots| ==> (i in kept <==> before <= snapshots[i].observedAt))
  }

  lemma SelectsOneMore(init: seq<Snapshot>, last: Snapshot, before: Time, kept: seq<nat>, result: seq<Snapshot>)
    requires Selects(init, before, kept, result)
    ensures last.observedAt < before ==> Selects(init + [last], before, kept, result)
    ensures before <= last.observedAt ==> Selects(init + [last], before, kept + [|init|], result + [last])
  {
    assert forall k :: 0 <= k < |kept| ==> kept[k] in kept;
  }

  /** A purge keeps exactly the snapshots not older than the cutoff, in their order, whatever the order is. */
  lemma {:induction false} KeptExactly(snapshots: seq<Snapshot>, before: Time) returns (kept: seq<nat>)
    ensures Selects(snapshots, before, kept, Kept(snapshots, before))
  {
    kept := [];
    if snapshots != [] {
      var n := |snapshots| - 1;
      kept := KeptExactly(snapshots[..n], before);
      SelectsOneMore(snapshots[..n], snapshots[n], before, kept, Kept(snapshots[..n], before));
      assert snapshots[..n] + [snapshots[n]] == snapshots;
      if before <= snapshots[n].observedAt {
        kept := kept + [n];
      }
    }
  }

  lemma {:induction false} NothingOldKept(snapshots: seq<Snapshot>, before: Time)
    ensures forall s :: s in Kept(snapshots, before) ==> before <= s.observedAt
  {
    if snapshots != [] {
      NothingOldKept(snapshots[..|snapshots| - 1], before);
    }
  }

  /** A stored snapshot keeps the state but for its id, title, start, quantity and store flag; in particular comparing
      with it is comparing with the state itself. */
  lemma SnapshotKeepsComparedFields(id: int, s: AuctionState)
    ensures ComparedFields(StateFromSnapshot(SnapshotOf(id, s))) == ComparedFields(s)
    ensures StateFromSnapshot(SnapshotOf(id, s))
         == s.(auctionId := "", title := None, startTime := None, quantity := None, isStore := None)
  {
  }
}
