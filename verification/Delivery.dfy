/** What becomes of notification rows over whole runs: no key is claimed twice, no row is lost
    (app/repositories/notifications.py, app/repositories/user_auctions.py:63-83). */
module Delivery {
  import opened AuctionTypes
  import opened Lists
  import opened Notifications
  import opened Tables
  import opened Engine
  import opened Monitoring
  import opened Runs
  import opened History
  import opened Lifecycle
  import Series
  import Watchlist
  import Ticking

  /** The database's constraints on notifications and links, and that every row has a text to send. */
  ghost predicate NotesInv(db: Db) {
    && IdsBelow(db.notes, db.nextNote)
    && UniqueKeys(db.notes)
    && (forall id :: id in db.notes ==> db.notes[id].key.link in db.links && db.notes[id].text.Some?)
    && (forall l :: l in db.links ==> l < db.nextLink)
  }

  /** The user gives up the link that a row belongs to. */
  predicate Unwatches(db: Db, e: Event, id: int)
    requires id in db.notes
  {
    var l := db.notes[id].key.link;
    e.RemoveWatch? && l in db.links && db.links[l].user == e.user && db.links[l].auction == e.auction
  }

  predicate SettlesRow(e: Event, id: int) { e.Settle? && e.note == id }

  predicate IsNew(db: Db, db': Db, id: int) { id in db'.notes && id !in db.notes }

  /** How a step may change the notification table. */
  ghost predicate Evolves(db: Db, e: Event, db': Db) {
    && db.nextNote <= db'.nextNote && db.nextLink <= db'.nextLink
    && (forall id :: id in db.notes && id in db'.notes ==>
          db'.notes[id] == if SettlesRow(e, id) then Settled(db.notes[id], e.status, e.now) else db.notes[id])
    && (forall id :: id in db.notes && id !in db'.notes ==>
          && db.notes[id].key.link !in db'.links
          && (Unwatches(db, e, id) || (e.Tick? && !db.notes[id].status.Pending?)))
    && (forall id :: IsNew(db, db', id) ==>
          && db.nextNote <= id
          && db'.notes[id].key.link in db.links && !HasKey(db.notes, db'.notes[id].key)
          && db'.notes[id].text.Some? && db'.notes[id].status.Pending?)
    && (forall l :: l in db'.links && l !in db.links ==> db.nextLink <= l)
  }

  // ---------------------------------------------------------------- each step

  /** The fan-out of a poll adds rows with new keys for links that exist. */
  ghost predicate Fans(db: Db, fan: Fan) {
    && Conserved(Fan(db.notes, db.nextNote, []), fan)
    && (forall id :: id in fan.created ==> fan.notes[id].key.link in db.links)
  }

  lemma PollFans(cfg: Settings, db: Db, e: Event)
    requires NotesInv(db) && e.Poll? && Faithful(cfg, db, e)
    ensures Fans(db, e.fan)
  {
    var watchers :| IsWatcherList(db, e.auction, watchers)
                 && e.fan == FanOfPoll(db, e.auction, e.outcome, e.now, watchers, cfg);
    if Effective(db, e.auction) && e.outcome.Observed? {
      PollFanFans(cfg, db, e.auction, e.outcome.state, e.now, watchers);
    }
  }

  lemma PollFanFans(cfg: Settings, db: Db, a: AuctionId, s: AuctionState, now: Time, watchers: seq<int>)
    requires NotesInv(db) && a in db.auctions && IsWatcherList(db, a, watchers)
    ensures Fans(db, PollFan(db, a, s, now, watchers, cfg))
  {
    var decisions := Decisions(db.auctions[a], db.SnapshotsOf(a), s, cfg.thresholds);
    var b := BatchFor(db, a, s, now, cfg);
    var start := Fan(db.notes, db.nextNote, []);
    PollDecisionsKeyed(db, a, s, cfg.thresholds);
    FanReachesLinks(start, watchers, decisions, b, db.links.Keys);
  }

  lemma FanReachesLinks(found: Fan, watchers: seq<int>, ds: seq<Decision>, b: Batch, links: set<int>)
    requires AllKeyed(ds, b.snapshotId) && IdsBelow(found.notes, found.next) && found.created == []
    requires forall l :: l in watchers ==> l in links
    ensures Keyable(Jobs(watchers, ds), b)
    ensures
      var f := FanOut(found, Jobs(watchers, ds), b);
      Conserved(found, f) && forall id :: id in f.created ==> f.notes[id].key.link in links
  {
    ProductKeyable(watchers, ds, b);
    FanOutConserves(found, Jobs(watchers, ds), b);
    var f := FanOut(found, Jobs(watchers, ds), b);
    forall id | id in f.created
      ensures f.notes[id].key.link in links
    {
      FanOutIsExact(found, watchers, ds, b, f.notes[id].key);
    }
  }

  lemma FanEvolves(db: Db, e: Event, fan: Fan, db': Db)
    requires NotesInv(db) && Fans(db, fan) && e.Poll?
    requires db'.links == db.links && db'.nextLink == db.nextLink
    requires db'.notes == fan.notes && db'.nextNote == fan.next
    ensures Evolves(db, e, db') && NotesInv(db')
  {
  }

  lemma SameNotesEvolve(db: Db, e: Event, db': Db)
    requires NotesInv(db) && !e.Settle? && db'.notes == db.notes && db'.nextNote == db.nextNote
    requires db.nextLink <= db'.nextLink
    requires forall l :: l in db.links ==> l in db'.links
    requires forall l :: l in db'.links ==> l < db'.nextLink && (l in db.links || db.nextLink <= l)
    ensures Evolves(db, e, db') && NotesInv(db')
  {
  }

  lemma PollEvolves(cfg: Settings, db: Db, e: Event)
    requires NotesInv(db) && e.Poll? && Fans(db, e.fan)
    ensures Evolves(db, e, Step(cfg, db, e)) && NotesInv(Step(cfg, db, e))
  {
    if Effective(db, e.auction) && e.outcome.Observed? {
      FanEvolves(db, e, e.fan, Step(cfg, db, e));
    } else {
      SameNotesEvolve(db, e, Step(cfg, db, e));
    }
  }

  lemma AddEvolves(cfg: Settings, db: Db, e: Event)
    requires NotesInv(db) && e.AddWatch?
    ensures Evolves(db, e, Step(cfg, db, e)) && NotesInv(Step(cfg, db, e))
  {
    var named := Watchlist.NamedAuction(e.url);
    if named.Some? {
      AddNamedLinks(db, e.user, named.value, Watchlist.CanonicalUrl(e.url), e.fetched, e.now);
    }
    SameNotesEvolve(db, e, Step(cfg, db, e));
  }

  /** Removing a watch deletes the rows of that watch and no others, and changes none. */
  lemma RemoveEvolves(cfg: Settings, db: Db, e: Event)
    requires NotesInv(db) && e.RemoveWatch?
    ensures Evolves(db, e, Step(cfg, db, e)) && NotesInv(Step(cfg, db, e))
    ensures
      var known := e.user in db.users && e.auction in db.auctions;
      forall id :: id in Step(cfg, db, e).notes <==> id in db.notes && !(known && Unwatches(db, e, id))
    ensures forall id :: id in Step(cfg, db, e).notes ==> Step(cfg, db, e).notes[id] == db.notes[id]
  {
    RemoveDeletes(db, e.user, e.auction, e.now, cfg);
    hide Watchlist.RemoveStep;
  }

  lemma RemoveDeletes(db: Db, user: int, a: AuctionId, now: Time, cfg: Settings)
    ensures
      var db' := Watchlist.RemoveStep(db, user, a, now, cfg);
      var gone := if user in db.users && a in db.auctions then Watchlist.LinksOf(db, user, a) else {};
      && db'.links == db.links - gone && db'.nextLink == db.nextLink && db'.nextNote == db.nextNote
      && db'.notes == map id | id in db.notes && db.notes[id].key.link !in gone :: db.notes[id]
  {
  }

  /** The cleanup of closed auctions never deletes a pending row. */
  lemma TickEvolves(cfg: Settings, db: Db, e: Event)
    requires NotesInv(db) && e.Tick?
    ensures Evolves(db, e, Step(cfg, db, e)) && NotesInv(Step(cfg, db, e))
  {
    var picked := db.(auctions := Ticking.PickedAuctions(db, e.due, e.now, cfg));
    forall id | id in db.notes && db.notes[id].key.link in FinalizedLinks(picked)
      ensures !db.notes[id].status.Pending?
    {
      assert !HasPendingNote(picked, db.notes[id].key.link);
    }
  }

  /** Recording an outcome gives that row the status, and the sending time if it was sent; no row goes. */
  lemma SettleEvolves(cfg: Settings, db: Db, e: Event)
    requires NotesInv(db) && e.Settle?
    ensures Evolves(db, e, Step(cfg, db, e)) && NotesInv(Step(cfg, db, e))
    ensures Step(cfg, db, e).notes.Keys == db.notes.Keys
    ensures forall id :: id in db.notes ==>
      && Step(cfg, db, e).notes[id].(status := db.notes[id].status, sentAt := db.notes[id].sentAt) == db.notes[id]
      && (id != e.note ==> Step(cfg, db, e).notes[id] == db.notes[id])
    ensures e.note in db.notes ==>
      var row := Step(cfg, db, e).notes[e.note];
      && row.status == e.status
      && row.sentAt == if e.status.Sent? then Some(e.now) else db.notes[e.note].sentAt
  {
  }

  lemma StepEvolves(cfg: Settings, db: Db, e: Event)
    requires NotesInv(db) && Faithful(cfg, db, e)
    ensures Evolves(db, e, Step(cfg, db, e)) && NotesInv(Step(cfg, db, e))
  {
    match e
    case Poll(_, _, _, _) =>
      PollFans(cfg, db, e);
      PollEvolves(cfg, db, e);
    case AddWatch(_, _, _, _) => AddEvolves(cfg, db, e);
    case RemoveWatch(_, _, _) => RemoveEvolves(cfg, db, e);
    case EditLink(_, _, _, _) => SameNotesEvolve(db, e, Step(cfg, db, e));
    case Settle(_, _, _) => SettleEvolves(cfg, db, e);
    case Tick(_, _) => TickEvolves(cfg, db, e);
    case Purge(_, _) => SameNotesEvolve(db, e, Step(cfg, db, e));
  }

  // ---------------------------------------------------------------- whole runs

  /** A run in which every poll fans out to the watchers it lists. */
  ghost predicate Real(cfg: Settings, run: seq<Event>) {
    Valid(cfg, run) && forall k :: 0 <= k < |run| ==> FaithfulAt(cfg, run, k)
  }

  ghost predicate FaithfulAt(cfg: Settings, run: seq<Event>, k: nat)
    requires k < |run|
  {
    Faithful(cfg, After(cfg, run[..k]), run[k])
  }

  ghost function DbAt(cfg: Settings, run: seq<Event>, i: nat): Db
    requires i <= |run|
  {
    After(cfg, run[..i])
  }

  lemma {:induction false} NotesAlways(cfg: Settings, run: seq<Event>, i: nat)
    requires Real(cfg, run) && i <= |run|
    ensures NotesInv(DbAt(cfg, run, i))
  {
    if i > 0 {
      NotesAlways(cfg, run, i - 1);
      StepAt(cfg, run, i - 1);
      assert FaithfulAt(cfg, run, i - 1);
      StepEvolves(cfg, DbAt(cfg, run, i - 1), run[i - 1]);
    }
  }

  lemma NotesEvolve(cfg: Settings, run: seq<Event>, i: nat)
    requires Real(cfg, run) && i < |run|
    ensures NotesInv(DbAt(cfg, run, i)) && NotesInv(DbAt(cfg, run, i + 1))
    ensures Evolves(DbAt(cfg, run, i), run[i], DbAt(cfg, run, i + 1))
  {
    NotesAlways(cfg, run, i);
    StepAt(cfg, run, i);
    assert FaithfulAt(cfg, run, i);
    StepEvolves(cfg, DbAt(cfg, run, i), run[i]);
  }

  /** Step `i` inserts row `id` with `key`. */
  ghost predicate Claims(cfg: Settings, run: seq<Event>, i: nat, id: int, key: NoteKey)
    requires i < |run|
  {
    IsNew(DbAt(cfg, run, i), DbAt(cfg, run, i + 1), id) && DbAt(cfg, run, i + 1).notes[id].key == key
  }

  /** `key` can never be claimed again: a row has it, or its link is gone for good. */
  ghost predicate Spent(db: Db, key: NoteKey) {
    key.link < db.nextLink && (HasKey(db.notes, key) || key.link !in db.links)
  }

  lemma EvolutionKeepsSpent(db: Db, e: Event, db': Db, key: NoteKey)
    requires Evolves(db, e, db') && Spent(db, key)
    ensures Spent(db', key)
  {
    if HasKey(db.notes, key) && key.link in db'.links {
      var id :| id in db.notes && db.notes[id].key == key;
      assert id in db'.notes && db'.notes[id].key == key;
    }
  }

  lemma {:induction false} StaysSpent(cfg: Settings, run: seq<Event>, i: nat, j: nat, key: NoteKey)
    requires Real(cfg, run) && i <= j <= |run| && Spent(DbAt(cfg, run, i), key)
    ensures Spent(DbAt(cfg, run, j), key)
    decreases j
  {
    if i < j {
      StaysSpent(cfg, run, i, j - 1, key);
      NotesEvolve(cfg, run, j - 1);
      EvolutionKeepsSpent(DbAt(cfg, run, j - 1), run[j - 1], DbAt(cfg, run, j), key);
    }
  }

  lemma ClaimSpends(db: Db, e: Event, db': Db, id: int)
    requires NotesInv(db') && Evolves(db, e, db') && IsNew(db, db', id)
    ensures !Spent(db, db'.notes[id].key) && Spent(db', db'.notes[id].key)
  {
  }

  /** Idempotent claims, over whole runs: one (watch, kind, dedup key) gets at most one row ever, even after that
      row is deleted, and whatever polls, retries and re-watches come later. */
  lemma KeyIsClaimedOnce(cfg: Settings, run: seq<Event>, i: nat, j: nat, id: int, id': int, key: NoteKey)
    requires Real(cfg, run) && i <= j < |run|
    requires Claims(cfg, run, i, id, key) && Claims(cfg, run, j, id', key)
    ensures i == j && id == id'
  {
    NotesEvolve(cfg, run, i);
    NotesEvolve(cfg, run, j);
    ClaimSpends(DbAt(cfg, run, i), run[i], DbAt(cfg, run, i + 1), id);
    ClaimSpends(DbAt(cfg, run, j), run[j], DbAt(cfg, run, j + 1), id');
    if i < j {
      StaysSpent(cfg, run, i + 1, j, key);
    }
  }

  predicate IsPending(db: Db, id: int) { id in db.notes && db.notes[id].status.Pending? }

  lemma EvolutionKeepsPending(db: Db, e: Event, db': Db, id: int)
    requires Evolves(db, e, db') && IsPending(db, id) && !SettlesRow(e, id) && !Unwatches(db, e, id)
    ensures IsPending(db', id) && db'.notes[id] == db.notes[id]
  {
  }

  /** Nothing touches row `id` on purpose at step `k`: no job records an outcome for it, and its user does not
      give up the watch. */
  ghost predicate LeftAlone(cfg: Settings, run: seq<Event>, k: nat, id: int)
    requires k < |run|
  {
    !SettlesRow(run[k], id) && (id in DbAt(cfg, run, k).notes ==> !Unwatches(DbAt(cfg, run, k), run[k], id))
  }

  /** No silent loss: a pending row stays, pending and with its text, through polls, ticks, cleanups of closed
      auctions, purges and other users' changes, until a job records its outcome or its own user unwatches. */
  lemma {:induction false} PendingRowSurvives(cfg: Settings, run: seq<Event>, i: nat, j: nat, id: int)
    requires Real(cfg, run) && i <= j <= |run| && IsPending(DbAt(cfg, run, i), id)
    requires forall k :: i <= k < j ==> LeftAlone(cfg, run, k, id)
    ensures IsPending(DbAt(cfg, run, j), id)
    ensures DbAt(cfg, run, j).notes[id] == DbAt(cfg, run, i).notes[id]
    ensures DbAt(cfg, run, j).notes[id].text.Some?
    decreases j
  {
    if i < j {
      PendingRowSurvives(cfg, run, i, j - 1, id);
      assert LeftAlone(cfg, run, j - 1, id);
      NotesEvolve(cfg, run, j - 1);
      EvolutionKeepsPending(DbAt(cfg, run, j - 1), run[j - 1], DbAt(cfg, run, j), id);
    } else {
      NotesAlways(cfg, run, i);
    }
  }

  // ---------------------------------------------------------------- recovery

  predicate IsStuck(db: Db, cutoff: Time, id: int) { IsPending(db, id) && db.notes[id].createdAt < cutoff }

  /** The other stuck rows that are older than row `id`. */
  function Older(db: Db, cutoff: Time, id: int): set<int>
    requires id in db.notes
  {
    set k | k in db.notes && IsStuck(db, cutoff, k) && db.notes[k].createdAt < db.notes[id].createdAt
  }

  /** The other stuck rows that are not newer than row `id`. */
  function NotNewer(db: Db, cutoff: Time, id: int): set<int>
    requires id in db.notes
  {
    set k | k in db.notes && k != id && IsStuck(db, cutoff, k) && db.notes[k].createdAt <= db.notes[id].createdAt
  }

  /** A stuck row is listed for recovery if fewer than 500 others are not newer, and only if fewer than 500 are
      older; without ties that is one condition. */
  lemma ListedForRecovery(db: Db, cutoff: Time, ids: seq<int>, id: int)
    requires Ticking.IsPendingList(db, cutoff, ids) && IsStuck(db, cutoff, id)
    ensures |NotNewer(db, cutoff, id)| < 500 ==> id in ids
    ensures id in ids ==> |Older(db, cutoff, id)| < 500
  {
    DistinctMembers(ids);
    if id !in ids {
      assert Members(ids) <= NotNewer(db, cutoff, id);
      SubsetIsSmaller(Members(ids), NotNewer(db, cutoff, id));
    } else {
      var older := Older(db, cutoff, id);
      assert older <= Members(ids);
      SubsetIsSmaller(older + {id}, Members(ids));
    }
  }

  /** A pending row is enqueued again by every tick that comes more than five minutes after its creation, until its
      outcome is recorded or its user unwatches, if fewer than 500 others are not newer; and only if fewer than 500
      are older. */
  lemma PendingRowIsRecovered(cfg: Settings, run: seq<Event>, i: nat, k: nat, id: int, ids: seq<int>)
    requires Real(cfg, run) && i <= k < |run| && IsPending(DbAt(cfg, run, i), id)
    requires forall m :: i <= m <= k ==> LeftAlone(cfg, run, m, id)
    requires DbAt(cfg, run, i).notes[id].createdAt < run[k].now - 5 * MINUTE
    requires Ticking.IsPendingList(DbAt(cfg, run, k + 1), run[k].now - Ticking.PENDING_RECOVERY_DELAY, ids)
    ensures
      var db, cutoff := DbAt(cfg, run, k + 1), run[k].now - 5 * MINUTE;
      && id in db.notes
      && (|NotNewer(db, cutoff, id)| < 500 ==> id in ids)
      && (id in ids ==> |Older(db, cutoff, id)| < 500)
  {
    PendingRowSurvives(cfg, run, i, k + 1, id);
    ListedForRecovery(DbAt(cfg, run, k + 1), run[k].now - Ticking.PENDING_RECOVERY_DELAY, ids, id);
  }

  // ---------------------------------------------------------------- from decisions to rows

  /** The dedup key that a decision of kind `key.kind` gets: the end for timed kinds, else the new snapshot. */
  predicate KeyMatches(key: NoteKey, s: AuctionState, snapshotId: int) {
    if key.kind.Timed() then s.endTime.Some? && key.key == EndKey(s.endTime.value)
    else key.key == SnapshotKey(snapshotId)
  }

  /** The fan-out inserted a row with this key. */
  ghost predicate HasCreated(f: Fan, key: NoteKey) {
    exists id :: id in f.created && id in f.notes && f.notes[id].key == key
  }

  lemma TaggedKeys(kinds: seq<Kind>, previous: Option<AuctionState>, s: AuctionState, b: Batch, key: NoteKey,
                   snapshotId: int)
    requires AllKeyed(Tagged(kinds, previous, s), b.snapshotId)
    requires b.snapshotId.Some? ==> b.snapshotId.value == snapshotId
    ensures (exists d :: d in Tagged(kinds, previous, s) && key == KeyOf(Job(key.link, d), b))
       <==> key.kind in kinds && KeyMatches(key, s, snapshotId)
  {
    var ds := Tagged(kinds, previous, s);
    if exists d :: d in ds && key == KeyOf(Job(key.link, d), b) {
      var d :| d in ds && key == KeyOf(Job(key.link, d), b);
      var i :| 0 <= i < |ds| && ds[i] == d;
      assert kinds[i] == key.kind;
    }
    if key.kind in kinds && KeyMatches(key, s, snapshotId) {
      var i :| 0 <= i < |kinds| && kinds[i] == key.kind;
      assert ds[i] in ds && DedupKeyFor(ds[i], b.snapshotId).Keyed?;
      assert key == KeyOf(Job(key.link, ds[i]), b);
    }
  }

  /** The rows that a successful poll's fan-out creates. */
  lemma PollFanKeys(cfg: Settings, db: Db, a: AuctionId, s: AuctionState, now: Time, watchers: seq<int>, key: NoteKey)
    requires NotesInv(db) && a in db.auctions
    ensures
      HasCreated(PollFan(db, a, s, now, watchers, cfg), key) <==>
        && !HasKey(db.notes, key) && key.link in watchers
        && key.kind in DecidedKinds(db.auctions[a], db.SnapshotsOf(a), s, cfg.thresholds)
        && KeyMatches(key, s, db.nextSnapshot)
  {
    var kinds := DecidedKinds(db.auctions[a], db.SnapshotsOf(a), s, cfg.thresholds);
    var previous := PreviousState(db.SnapshotsOf(a));
    var b := BatchFor(db, a, s, now, cfg);
    PollDecisionsKeyed(db, a, s, cfg.thresholds);
    FanCreates(Fan(db.notes, db.nextNote, []), watchers, kinds, previous, s, b, key, db.nextSnapshot);
  }

  lemma ConservedCreated(found: Fan, f: Fan, key: NoteKey)
    requires Conserved(found, f)
    ensures (exists id :: id in f.created && f.notes[id].key == key) <==> HasCreated(f, key)
  {
  }

  lemma FanCreates(found: Fan, watchers: seq<int>, kinds: seq<Kind>, previous: Option<AuctionState>, s: AuctionState,
                   b: Batch, key: NoteKey, snapshotId: int)
    requires AllKeyed(Tagged(kinds, previous, s), b.snapshotId)
    requires IdsBelow(found.notes, found.next) && found.created == []
    requires b.snapshotId.Some? ==> b.snapshotId.value == snapshotId
    ensures
      var ds := Tagged(kinds, previous, s);
      && Keyable(Jobs(watchers, ds), b)
      && (HasCreated(FanOut(found, Jobs(watchers, ds), b), key) <==>
            !HasKey(found.notes, key) && key.link in watchers && key.kind in kinds && KeyMatches(key, s, snapshotId))
  {
    FanOutIsExact(found, watchers, Tagged(kinds, previous, s), b, key);
    TaggedKeys(kinds, previous, s, b, key, snapshotId);
    var f := FanOut(found, Jobs(watchers, Tagged(kinds, previous, s)), b);
    assert (exists id :: id in f.created && f.notes[id].key == key)
      <==> !HasKey(found.notes, key) && key.link in watchers && key.kind in kinds && KeyMatches(key, s, snapshotId);
    ConservedCreated(found, f, key);
  }

  lemma ObservationIsPoll(cfg: Settings, db: Db, e: Event, a: AuctionId)
    requires ActionOn(cfg, db, e, a).Observe?
    ensures e.Poll? && e.auction == a && Effective(db, a) && e.outcome == Observed(ActionOn(cfg, db, e, a).state)
  {
  }

  /** Step `i` inserts a row with `key`. */
  ghost predicate ClaimedAt(cfg: Settings, run: seq<Event>, i: nat, key: NoteKey)
    requires i < |run|
  {
    exists id :: Claims(cfg, run, i, id, key)
  }

  lemma CreatedAreNew(db: Db, fan: Fan, db': Db, key: NoteKey)
    requires Fans(db, fan) && db'.notes == fan.notes
    ensures HasCreated(fan, key) <==> exists id :: IsNew(db, db', id) && db'.notes[id].key == key
  {
    assert forall id :: id in db'.notes && id !in db.notes ==> IsNew(db, db', id) && id in fan.created;
  }

  /** A poll gives a row to exactly the watchers that are to be notified, for exactly the kinds it decides, unless
      one with the same key is there already. */
  lemma DecisionsBecomeRows(cfg: Settings, run: seq<Event>, i: nat, a: AuctionId, key: NoteKey)
    requires Real(cfg, run) && i < |run| && ActionAt(cfg, run, i, a).Observe?
    ensures
      var db := DbAt(cfg, run, i);
      ClaimedAt(cfg, run, i, key) <==>
        && (forall id :: id in db.notes ==> db.notes[id].key != key)
        && key.link in db.links && db.links[key.link].auction == a && db.links[key.link].enabled
        && db.links[key.link].user in db.users && db.users[db.links[key.link].user]
        && key.kind in KindsAt(cfg, run, i, a)
        && KeyMatches(key, ActionAt(cfg, run, i, a).state, db.nextSnapshot)
  {
    var db, e := DbAt(cfg, run, i), run[i];
    NotesAlways(cfg, run, i);
    ObservationIsPoll(cfg, db, e, a);
    assert FaithfulAt(cfg, run, i);
    FaithfulCreates(cfg, db, e, a, key);
    ClaimsAreCreated(cfg, run, i, key);
  }

  lemma ClaimsAreCreated(cfg: Settings, run: seq<Event>, i: nat, key: NoteKey)
    requires Real(cfg, run) && i < |run| && run[i].Poll?
    requires Effective(DbAt(cfg, run, i), run[i].auction) && run[i].outcome.Observed?
    ensures ClaimedAt(cfg, run, i, key) <==> HasCreated(run[i].fan, key)
  {
    var db, db' := DbAt(cfg, run, i), DbAt(cfg, run, i + 1);
    NotesAlways(cfg, run, i);
    assert FaithfulAt(cfg, run, i);
    PollFans(cfg, db, run[i]);
    PollNotesAt(cfg, run, i);
    CreatedAreNew(db, run[i].fan, db', key);
    assert forall id :: Claims(cfg, run, i, id, key) <==> IsNew(db, db', id) && db'.notes[id].key == key;
  }

  lemma PollNotes(cfg: Settings, db: Db, e: Event)
    requires e.Poll?
    ensures Step(cfg, db, e).links == db.links
    ensures Effective(db, e.auction) && e.outcome.Observed? ==> Step(cfg, db, e).notes == e.fan.notes
  {
  }

  lemma PollNotesAt(cfg: Settings, run: seq<Event>, i: nat)
    requires i < |run| && run[i].Poll?
    ensures DbAt(cfg, run, i + 1).links == DbAt(cfg, run, i).links
    ensures Effective(DbAt(cfg, run, i), run[i].auction) && run[i].outcome.Observed? ==>
      DbAt(cfg, run, i + 1).notes == run[i].fan.notes
  {
    assert run[..i + 1][..i] == run[..i];
    PollNotes(cfg, DbAt(cfg, run, i), run[i]);
  }

  lemma FaithfulCreates(cfg: Settings, db: Db, e: Event, a: AuctionId, key: NoteKey)
    requires NotesInv(db) && Faithful(cfg, db, e) && Effective(db, a)
    requires e.Poll? && e.auction == a && e.outcome.Observed?
    ensures HasCreated(e.fan, key) <==>
      && !HasKey(db.notes, key) && Notified(db, key.link, a)
      && key.kind in KindsFor(SliceOf(db, a), e.outcome.state, cfg.thresholds)
      && KeyMatches(key, e.outcome.state, db.nextSnapshot)
  {
    var watchers :| IsWatcherList(db, a, watchers)
                 && e.fan == FanOfPoll(db, a, e.outcome, e.now, watchers, cfg);
    PollFanKeys(cfg, db, a, e.outcome.state, e.now, watchers, key);
  }

  /** The text that a decision of `kind` has for link `l`: rendered from the kind, the state of the latest snapshot, the
      observed state, the auction's URL and the watcher's own name for it. */
  function TextFor(cfg: Settings, db: Db, a: AuctionId, s: AuctionState, kind: Kind, l: int): string
    requires a in db.auctions && l in db.links
  {
    var snapshots := db.SnapshotsOf(a);
    var previous := if snapshots == [] then None else Some(StateFromSnapshot(snapshots[|snapshots| - 1]));
    cfg.render(Decision(kind, previous, Some(s)), db.auctions[a].url, db.links[l].name)
  }

  lemma RowOfDecision(n: Note, watchers: seq<int>, ds: seq<Decision>, jobs: seq<Job>, b: Batch, k: nat)
    requires jobs == Jobs(watchers, ds) && k < |jobs| && IsRowOf(n, jobs[k], b)
    requires forall l :: l in watchers ==> l in b.links
    ensures n.key.link in b.links
    ensures exists d :: d in ds && d.kind == n.key.kind && n.text == Some(b.render(d, b.url, b.links[n.key.link].name))
    ensures n.status == Pending && n.createdAt == b.now && n.sentAt == None
  {
    JobsAreProduct(watchers, ds, jobs[k]);
  }

  lemma PollFanRows(cfg: Settings, db: Db, a: AuctionId, s: AuctionState, now: Time, watchers: seq<int>, id: int)
    requires NotesInv(db) && a in db.auctions && IsWatcherList(db, a, watchers) && Chronological(db.SnapshotsOf(a))
    ensures
      var fan := PollFan(db, a, s, now, watchers, cfg);
      id in fan.created ==>
        && id in fan.notes && fan.notes[id].key.link in db.links
        && fan.notes[id] == Note(fan.notes[id].key,
                                 Some(TextFor(cfg, db, a, s, fan.notes[id].key.kind, fan.notes[id].key.link)),
                                 Pending, now, None)
  {
    var ds := Decisions(db.auctions[a], db.SnapshotsOf(a), s, cfg.thresholds);
    var b := BatchFor(db, a, s, now, cfg);
    var start := Fan(db.notes, db.nextNote, []);
    PollDecisionsKeyed(db, a, s, cfg.thresholds);
    ProductKeyable(watchers, ds, b);
    var jobs := Jobs(watchers, ds);
    FanOutRows(start, jobs, b);
    PreviousIsLast(db.SnapshotsOf(a));
    var fan := PollFan(db, a, s, now, watchers, cfg);
    if id in fan.created {
      var k :| 0 <= k < |jobs| && IsRowOf(fan.notes[id], jobs[k], b);
      RowOfDecision(fan.notes[id], watchers, ds, jobs, b, k);
    }
  }

  /** What a row says: each row that a poll inserts has exactly the text that its decision, the auction's URL and the
      watcher's name for it give, is pending, and was made when the poll was. */
  lemma RowsSayWhatWasDecided(cfg: Settings, run: seq<Event>, i: nat, a: AuctionId, id: int)
    requires Real(cfg, run) && i < |run| && ActionAt(cfg, run, i, a).Observe?
    requires IsNew(DbAt(cfg, run, i), DbAt(cfg, run, i + 1), id)
    ensures
      var db, s, n := DbAt(cfg, run, i), ActionAt(cfg, run, i, a).state, DbAt(cfg, run, i + 1).notes[id];
      && a in db.auctions && n.key.link in db.links
      && n == Note(n.key, Some(TextFor(cfg, db, a, s, n.key.kind, n.key.link)), Pending, run[i].now, None)
  {
    var db, e := DbAt(cfg, run, i), run[i];
    NotesAlways(cfg, run, i);
    SliceStep(cfg, run, i, a);
    ObservationIsPoll(cfg, db, e, a);
    assert FaithfulAt(cfg, run, i);
    PollFans(cfg, db, e);
    PollNotesAt(cfg, run, i);
    FaithfulRows(cfg, db, e, a, id);
  }

  lemma FaithfulRows(cfg: Settings, db: Db, e: Event, a: AuctionId, id: int)
    requires NotesInv(db) && Faithful(cfg, db, e) && Effective(db, a) && Chronological(db.SnapshotsOf(a))
    requires e.Poll? && e.auction == a && e.outcome.Observed? && id in e.fan.created
    ensures id in e.fan.notes && e.fan.notes[id].key.link in db.links
    ensures
      var key := e.fan.notes[id].key;
      e.fan.notes[id] == Note(key, Some(TextFor(cfg, db, a, e.outcome.state, key.kind, key.link)), Pending, e.now, None)
  {
    var watchers :| IsWatcherList(db, a, watchers)
                 && e.fan == FanOfPoll(db, a, e.outcome, e.now, watchers, cfg);
    PollFanRows(cfg, db, a, e.outcome.state, e.now, watchers, id);
  }

  /** A user's setting takes effect: a watch that is switched off gets no row from any poll until it is switched on
      again, and one that an active user switches on does; the name goes into the texts. */
  lemma EditTakesEffect(cfg: Settings, db: Db, l: int, enabled: bool, name: Option<string>, now: Time)
    requires l in db.links
    ensures
      var db', link := Step(cfg, db, EditLink(l, enabled, name, now)), db.links[l];
      && (Notified(db', l, link.auction) <==> enabled && link.user in db.users && db.users[link.user])
      && db' == db.(links := db.links[l := Link(link.user, link.auction, enabled, name)])
  {
  }

  // ---------------------------------------------------------------- from rows back to decisions

  lemma OnlyPollsInsert(cfg: Settings, db: Db, e: Event, id: int)
    requires IsNew(db, Step(cfg, db, e), id)
    ensures e.Poll? && Effective(db, e.auction) && e.outcome.Observed?
  {
    match e
    case Poll(b, o, now, fan) =>
    case AddWatch(user, url, fetched, now) =>
      var named := Watchlist.NamedAuction(url);
      if named.Some? {
        AddNamedLinks(db, user, named.value, Watchlist.CanonicalUrl(url), fetched, now);
      }
    case RemoveWatch(user, removed, now) =>
    case Tick(now, due) =>
    case Purge(_, before) =>
    case EditLink(_, _, _, _) =>
    case Settle(_, _, _) =>
  }

  lemma PollObserves(cfg: Settings, db: Db, e: Event)
    requires e.Poll? && Effective(db, e.auction) && e.outcome.Observed?
    ensures ActionOn(cfg, db, e, e.auction) == Observe(e.outcome.state)
  {
  }

  /** A row for a timed notice comes from a poll that decided it, of the auction that the row's link watches. */
  lemma ClaimIsDecided(cfg: Settings, run: seq<Event>, m: nat, key: NoteKey, end: Time) returns (b: AuctionId)
    requires Real(cfg, run) && m < |run| && ClaimedAt(cfg, run, m, key)
    requires key.key == EndKey(end)
    ensures DecidesAt(cfg, run, m, b, key.kind, end) && Watches(DbAt(cfg, run, m), key.link, b)
  {
    var id :| Claims(cfg, run, m, id, key);
    b := ClaimingPoll(cfg, run, m, id);
    DecisionsBecomeRows(cfg, run, m, b, key);
  }

  lemma ClaimingPoll(cfg: Settings, run: seq<Event>, m: nat, id: int) returns (b: AuctionId)
    requires Valid(cfg, run) && m < |run| && IsNew(DbAt(cfg, run, m), DbAt(cfg, run, m + 1), id)
    ensures ActionAt(cfg, run, m, b).Observe?
  {
    StepAt(cfg, run, m);
    OnlyPollsInsert(cfg, DbAt(cfg, run, m), run[m], id);
    b := run[m].auction;
    PollObserves(cfg, DbAt(cfg, run, m), run[m]);
  }

  lemma {:induction false} RowWasClaimed(cfg: Settings, run: seq<Event>, k: nat, id: int) returns (m: nat)
    requires Real(cfg, run) && k <= |run| && id in DbAt(cfg, run, k).notes
    ensures m < k && Claims(cfg, run, m, id, DbAt(cfg, run, k).notes[id].key)
  {
    NotesEvolve(cfg, run, k - 1);
    if id in DbAt(cfg, run, k - 1).notes {
      m := RowWasClaimed(cfg, run, k - 1, id);
    } else {
      m := k - 1;
    }
  }

  /** Link `l` watches `a`, now or whenever it is there. */
  predicate LinkIs(db: Db, l: int, a: AuctionId) {
    l < db.nextLink && (l in db.links ==> db.links[l].auction == a)
  }

  lemma StepKeepsLink(cfg: Settings, db: Db, e: Event, l: int, a: AuctionId)
    requires LinkIs(db, l, a) && Evolves(db, e, Step(cfg, db, e))
    ensures LinkIs(Step(cfg, db, e), l, a)
  {
    if l in Step(cfg, db, e).links {
      if e.AddWatch? {
        var named := Watchlist.NamedAuction(e.url);
        if named.Some? {
          AddNamedLinks(db, e.user, named.value, Watchlist.CanonicalUrl(e.url), e.fetched, e.now);
        }
      } else {
        NewLinkComesFromAdd(cfg, db, e, l);
      }
    }
  }

  lemma LinkKept(cfg: Settings, run: seq<Event>, k: nat, l: int, a: AuctionId)
    requires Real(cfg, run) && k < |run| && LinkIs(DbAt(cfg, run, k), l, a)
    ensures LinkIs(DbAt(cfg, run, k + 1), l, a)
  {
    NotesEvolve(cfg, run, k);
    StepAt(cfg, run, k);
    StepKeepsLink(cfg, DbAt(cfg, run, k), run[k], l, a);
  }

  /** A link watches the same auction as long as it exists. */
  lemma {:induction false} LinkStays(cfg: Settings, run: seq<Event>, i: nat, j: nat, l: int, a: AuctionId)
    requires Real(cfg, run) && i <= j <= |run| && LinkIs(DbAt(cfg, run, i), l, a)
    ensures LinkIs(DbAt(cfg, run, j), l, a)
    decreases j
  {
    if i < j {
      LinkStays(cfg, run, i, j - 1, l, a);
      LinkKept(cfg, run, j - 1, l, a);
    }
  }

  /** If one poll alone decides a timed notice for an auction, no row for it was made before for a link that watches
      the auction then. */
  lemma NotClaimedBefore(cfg: Settings, run: seq<Event>, m: nat, k: nat, a: AuctionId, key: NoteKey, end: Time)
    requires Real(cfg, run) && m < k < |run| && key.key == EndKey(end)
    requires Watches(DbAt(cfg, run, k), key.link, a) && !DecidesAt(cfg, run, m, a, key.kind, end)
    ensures !ClaimedAt(cfg, run, m, key)
  {
    if ClaimedAt(cfg, run, m, key) {
      var b := ClaimIsDecided(cfg, run, m, key, end);
      NotesAlways(cfg, run, m);
      LinkStays(cfg, run, m, k, key.link, b);
    }
  }

  /** End to end: while the end stays put, each crossing that the polls move past gives each watcher that is to be
      notified at the deciding poll, step `k`, a row for it in that step, and no other step of the whole run makes
      one. */
  lemma TimedNoticeIsRecordedOnce(cfg: Settings, run: seq<Event>, i: nat, n: nat, a: AuctionId, kind: Kind, end: Time)
    returns (k: nat)
    requires Real(cfg, run) && i <= n <= |run| && kind.Timed() && SteadyEnd(cfg, run, i, n, a, end)
    requires SliceAt(cfg, run, i, a).row.Some? && SliceAt(cfg, run, n, a).row.Some?
    requires LastPoll(SliceAt(cfg, run, i, a)) < end - cfg.thresholds.For(kind) <= LastPoll(SliceAt(cfg, run, n, a))
    ensures i <= k < n && DecidesAt(cfg, run, k, a, kind, end)
    ensures forall l :: Notified(DbAt(cfg, run, k), l, a) ==> ClaimedOnlyAt(cfg, run, k, NoteKey(l, kind, EndKey(end)))
  {
    k := TimedExactlyOnce(cfg, run, i, n, a, kind, end);
    forall l | Notified(DbAt(cfg, run, k), l, a)
      ensures ClaimedOnlyAt(cfg, run, k, NoteKey(l, kind, EndKey(end)))
    {
      NoticeIsClaimed(cfg, run, k, a, kind, end, l);
    }
  }

  ghost predicate ClaimedOnlyAt(cfg: Settings, run: seq<Event>, k: nat, key: NoteKey)
    requires k < |run|
  {
    forall m :: 0 <= m < |run| ==> (ClaimedAt(cfg, run, m, key) <==> m == k)
  }

  lemma NoticeIsClaimed(cfg: Settings, run: seq<Event>, k: nat, a: AuctionId, kind: Kind, end: Time, l: int)
    requires Real(cfg, run) && k < |run| && kind.Timed() && DecidesAt(cfg, run, k, a, kind, end)
    requires forall m :: 0 <= m < |run| && m != k ==> !DecidesAt(cfg, run, m, a, kind, end)
    requires Notified(DbAt(cfg, run, k), l, a)
    ensures ClaimedOnlyAt(cfg, run, k, NoteKey(l, kind, EndKey(end)))
  {
    var key := NoteKey(l, kind, EndKey(end));
    forall m: nat | m < k
      ensures !ClaimedAt(cfg, run, m, key)
    {
      NotClaimedBefore(cfg, run, m, k, a, key, end);
    }
    NotThereYet(cfg, run, k, key);
    DecisionsBecomeRows(cfg, run, k, a, key);
    forall m: nat | k < m < |run|
      ensures !ClaimedAt(cfg, run, m, key)
    {
      NotClaimedAgain(cfg, run, k, m, key);
    }
  }

  lemma NotThereYet(cfg: Settings, run: seq<Event>, k: nat, key: NoteKey)
    requires Real(cfg, run) && k <= |run| && forall m :: 0 <= m < k ==> !ClaimedAt(cfg, run, m, key)
    ensures !HasKey(DbAt(cfg, run, k).notes, key)
  {
    if HasKey(DbAt(cfg, run, k).notes, key) {
      var id :| id in DbAt(cfg, run, k).notes && DbAt(cfg, run, k).notes[id].key == key;
      var m := RowWasClaimed(cfg, run, k, id);
      assert ClaimedAt(cfg, run, m, key);
    }
  }

  lemma NotClaimedAgain(cfg: Settings, run: seq<Event>, k: nat, m: nat, key: NoteKey)
    requires Real(cfg, run) && k < m < |run| && ClaimedAt(cfg, run, k, key)
    ensures !ClaimedAt(cfg, run, m, key)
  {
    if ClaimedAt(cfg, run, m, key) {
      var id :| Claims(cfg, run, k, id, key);
      var id' :| Claims(cfg, run, m, id', key);
      KeyIsClaimedOnce(cfg, run, k, m, id, id', key);
    }
  }

  // ---------------------------------------------------------------- changes, too

  lemma ChangeIsStored(x: Slice, s: AuctionState, th: Thresholds, kind: Kind)
    requires x.row.Some? && kind in KindsFor(x, s, th) && !kind.Timed()
    ensures StoresSnapshot(x.snapshots, s)
  {
    if s.endTime.Some? {
      TimedKindsInOrder(3, s.endTime.value, LastPoll(x), s.observedAt, th);
    }
  }

  ghost function NextSnapshot(cfg: Settings, run: seq<Event>, i: nat): int
    requires i <= |run|
  {
    DbAt(cfg, run, i).nextSnapshot
  }

  lemma ChangeTakesAnId(cfg: Settings, run: seq<Event>, m: nat, b: AuctionId, kind: Kind)
    requires Valid(cfg, run) && m < |run| && kind in KindsAt(cfg, run, m, b) && !kind.Timed()
    ensures NextSnapshot(cfg, run, m) < NextSnapshot(cfg, run, m + 1)
  {
    ChangeIsStored(SliceAt(cfg, run, m, b), ActionAt(cfg, run, m, b).state, cfg.thresholds, kind);
    StepAt(cfg, run, m);
    SnapshotIdsAdvance(cfg, DbAt(cfg, run, m), run[m], b);
  }

  lemma IdsAdvance(cfg: Settings, run: seq<Event>, i: nat, j: nat)
    requires Valid(cfg, run) && i <= j <= |run|
    ensures NextSnapshot(cfg, run, i) <= NextSnapshot(cfg, run, j)
  {
    var ids := seq(j + 1, k requires 0 <= k <= j => NextSnapshot(cfg, run, k));
    forall k | i <= k < j
      ensures ids[k] <= ids[k + 1]
    {
      StepAt(cfg, run, k);
      SnapshotIdsAdvance(cfg, DbAt(cfg, run, k), run[k], "");
    }
    Series.Grows(ids, i, j);
  }

  /** A row for a change that step `m` makes has the id of the snapshot stored in that step. */
  lemma ClaimNamesItsSnapshot(cfg: Settings, run: seq<Event>, m: nat, key: NoteKey)
    requires Real(cfg, run) && m < |run| && ClaimedAt(cfg, run, m, key) && !key.kind.Timed()
    ensures key.key == SnapshotKey(NextSnapshot(cfg, run, m))
    ensures NextSnapshot(cfg, run, m) < NextSnapshot(cfg, run, m + 1)
  {
    var id :| Claims(cfg, run, m, id, key);
    var b := ClaimingPoll(cfg, run, m, id);
    DecisionsBecomeRows(cfg, run, m, b, key);
    ChangeTakesAnId(cfg, run, m, b, key.kind);
  }

  /** End to end for CHANGE, EXTENSION and CLOSED: each that a poll decides gives each watcher that is to be notified
      a row for it in that step, and no other step of the whole run makes one; in particular none is skipped because
      a row has its key already. */
  lemma ChangeIsRecordedOnce(cfg: Settings, run: seq<Event>, i: nat, a: AuctionId, kind: Kind, l: int)
    requires Real(cfg, run) && i < |run| && kind in KindsAt(cfg, run, i, a) && !kind.Timed()
    requires Notified(DbAt(cfg, run, i), l, a)
    ensures ClaimedOnlyAt(cfg, run, i, NoteKey(l, kind, SnapshotKey(DbAt(cfg, run, i).nextSnapshot)))
  {
    var key := NoteKey(l, kind, SnapshotKey(DbAt(cfg, run, i).nextSnapshot));
    forall m: nat | m < i
      ensures !ClaimedAt(cfg, run, m, key)
    {
      if ClaimedAt(cfg, run, m, key) {
        ClaimNamesItsSnapshot(cfg, run, m, key);
        IdsAdvance(cfg, run, m + 1, i);
      }
    }
    NotThereYet(cfg, run, i, key);
    DecisionsBecomeRows(cfg, run, i, a, key);
    forall m: nat | i < m < |run|
      ensures !ClaimedAt(cfg, run, m, key)
    {
      NotClaimedAgain(cfg, run, i, m, key);
    }
  }
}
