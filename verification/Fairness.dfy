/** No due auction starves behind others (app/repositories/auctions.py:98-110, app/scheduler/scheduler.py:68-80). */
module Fairness {
  import opened AuctionTypes
  import opened Backoff
  import opened Lists
  import opened Polling
  import opened Tables
  import opened Runs
  import opened History
  import Series
  import Ticking

  /** An auction that the due query may list before one whose `next_poll_at` is `p`. */
  predicate InLine(x: Slice, p: Time) {
    && x.row.Some? && x.row.value.monitoringActive && !x.row.value.isClosed
    && x.row.value.nextPollAt.Some? && x.row.value.nextPollAt.value <= p
  }

  /** The other auctions in line with `a`. */
  ghost function Ahead(db: Db, a: AuctionId, p: Time): set<AuctionId> {
    set b | b in db.auctions && b != a && InLine(SliceOf(db, b), p)
  }

  /** `a` is waiting to be picked, since `p`. */
  predicate WaitsAt(db: Db, a: AuctionId, p: Time) {
    InLine(SliceOf(db, a), p) && db.auctions[a].nextPollAt == Some(p)
  }

  /** Everything from step `i` to step `n` happens after `p`. */
  ghost predicate Past(run: seq<Event>, i: nat, n: nat, p: Time)
    requires i <= n <= |run|
  {
    forall k :: i <= k < n ==> p < run[k].now
  }

  /** A poll of `b` that observed its page so long ago that the next poll it asks for is due by `p`. */
  predicate WritesOld(cfg: Settings, e: Event, b: AuctionId, p: Time) {
    && e.Poll? && e.auction == b && e.outcome.Observed?
    && !e.outcome.state.isClosed && NextPollAt(e.outcome.state, cfg.intervals) <= p
  }

  /** Such a poll of another auction than `a`. */
  predicate JoinsLate(cfg: Settings, e: Event, a: AuctionId, p: Time) {
    e.Poll? && e.auction != a && WritesOld(cfg, e, e.auction, p)
  }

  /** How many auctions a step lets into the line. */
  function Joining(cfg: Settings, e: Event, a: AuctionId, p: Time): nat { if JoinsLate(cfg, e, a, p) then 1 else 0 }

  /** How many polls from step `i` to step `n` write a due time of `p` or before. */
  function LateWrites(cfg: Settings, run: seq<Event>, i: nat, n: nat, a: AuctionId, p: Time): nat
    requires i <= n <= |run|
    decreases n
  {
    if i == n then 0 else LateWrites(cfg, run, i, n - 1, a, p) + Joining(cfg, run[n - 1], a, p)
  }

  /** The ticks among the steps from `i` to `n`. */
  function Ticks(run: seq<Event>, i: nat, n: nat): nat
    requires i <= n <= |run|
    decreases n
  {
    if i == n then 0 else Ticks(run, i, n - 1) + if run[n - 1].Tick? then 1 else 0
  }

  /** The action writes no due time of `p` or before. */
  predicate Later(cfg: Settings, action: Action, p: Time) {
    match action
    case Observe(s) => s.isClosed || p < NextPollAt(s, cfg.intervals)
    case Fail(_, at) => p < at
    case Create(_, _, at) => p < at
    case Resume(at) => p < at
    case Reschedule(next) => p < next
    case _ => true
  }

  predicate LeavesLineAlone(action: Action) { action.Idle? || action.Forget? }

  /** No such action lets an auction join the line: whoever is in line afterwards was there before, untouched. */
  lemma NobodyJoins(cfg: Settings, x: Slice, action: Action, next: int, p: Time)
    requires cfg.Valid() && Later(cfg, action, p) && InLine(Act(cfg, x, action, next), p)
    ensures InLine(x, p) && LeavesLineAlone(action)
  {
    match action
    case Fail(_, _) =>
      if x.row.Some? {
        var errors := x.row.value.consecutiveErrors + 1;
        WaitGrowsToCap(errors, errors, cfg.backoffBase, cfg.backoffMax);
      }
    case _ =>
  }

  lemma EventsAreLater(cfg: Settings, db: Db, e: Event, b: AuctionId, p: Time)
    requires cfg.Valid() && p < e.now && !WritesOld(cfg, e, b, p)
    ensures Later(cfg, ActionOn(cfg, db, e, b), p)
  {
  }

  lemma LineOnlyShrinks(cfg: Settings, db: Db, e: Event, a: AuctionId, b: AuctionId, p: Time)
    requires cfg.Valid() && p < e.now && !WritesOld(cfg, e, b, p)
    requires b in Ahead(Step(cfg, db, e), a, p)
    ensures b in Ahead(db, a, p) && LeavesLineAlone(ActionOn(cfg, db, e, b))
  {
    StepOn(cfg, db, e, b);
    EventsAreLater(cfg, db, e, b, p);
    NobodyJoins(cfg, SliceOf(db, b), ActionOn(cfg, db, e, b), db.nextSnapshot, p);
  }

  /** A tick that passes over `a` takes a full batch out of the line. */
  lemma TickServesTheLine(cfg: Settings, db: Db, now: Time, due: seq<AuctionId>, a: AuctionId, p: Time)
    requires cfg.Valid() && Ticking.IsDueList(db, now, cfg.dueLimit, due) && p < now
    requires WaitsAt(db, a, p) && a !in due
    ensures |due| == cfg.dueLimit && Members(due) <= Ahead(db, a, p)
    ensures forall b :: b in Ahead(Step(cfg, db, Tick(now, due)), a, p) ==> b in Ahead(db, a, p) - Members(due)
  {
    assert Ticking.IsDue(db, a, now);
    forall b | b in due
      ensures b in Ahead(db, a, p)
    {
      assert Ticking.IsDue(db, b, now) && a in Ticking.DueTimes(db, now);
    }
    forall b | b in Ahead(Step(cfg, db, Tick(now, due)), a, p)
      ensures b in Ahead(db, a, p) - Members(due)
    {
      LineOnlyShrinks(cfg, db, Tick(now, due), a, b, p);
    }
  }

  /** A tick that picks `a` moves it. */
  lemma PickedMoves(cfg: Settings, db: Db, now: Time, due: seq<AuctionId>, a: AuctionId, p: Time)
    requires cfg.Valid() && p < now && a in due
    ensures !WaitsAt(Step(cfg, db, Tick(now, due)), a, p)
  {
    TickOn(cfg, db, now, due, a);
  }

  lemma StepServes(cfg: Settings, db: Db, e: Event, a: AuctionId, p: Time)
    requires cfg.Valid() && Enabled(cfg, db, e) && p < e.now
    requires WaitsAt(Step(cfg, db, e), a, p)
    ensures |Ahead(Step(cfg, db, e), a, p)| + Served(cfg, e) <= |Ahead(db, a, p)| + Joining(cfg, e, a, p)
  {
    var before, after := Ahead(db, a, p), Ahead(Step(cfg, db, e), a, p);
    if e.Tick? {
      if a in e.due {
        PickedMoves(cfg, db, e.now, e.due, a, p);
      } else {
        TickServesTheLine(cfg, db, e.now, e.due, a, p);
        DistinctMembers(e.due);
        SubsetIsSmaller(after, before - Members(e.due));
      }
    } else {
      var joined := if JoinsLate(cfg, e, a, p) then {e.auction} else {};
      forall b | b in after && b !in joined
        ensures b in before
      {
        LineOnlyShrinks(cfg, db, e, a, b, p);
      }
      SubsetIsSmaller(after, before + joined);
    }
  }

  /** How many auctions a step takes out of the line. */
  function Served(cfg: Settings, e: Event): nat { if e.Tick? then cfg.dueLimit else 0 }

  ghost function InFront(cfg: Settings, run: seq<Event>, k: nat, a: AuctionId, p: Time): nat
    requires k <= |run|
  {
    |Ahead(After(cfg, run[..k]), a, p)|
  }

  ghost predicate WaitsAfter(cfg: Settings, run: seq<Event>, k: nat, a: AuctionId, p: Time)
    requires k <= |run|
  {
    WaitsAt(After(cfg, run[..k]), a, p)
  }

  lemma ServesAt(cfg: Settings, run: seq<Event>, k: nat, a: AuctionId, p: Time)
    requires Valid(cfg, run) && k < |run| && Past(run, k, k + 1, p)
    requires WaitsAfter(cfg, run, k + 1, a, p)
    ensures InFront(cfg, run, k + 1, a, p) + Served(cfg, run[k])
         <= InFront(cfg, run, k, a, p) + Joining(cfg, run[k], a, p)
  {
    StepAt(cfg, run, k);
    ValidSettings(cfg, run);
    StepServes(cfg, After(cfg, run[..k]), run[k], a, p);
  }

  lemma ValidSettings(cfg: Settings, run: seq<Event>)
    requires Valid(cfg, run)
    ensures cfg.Valid()
  {
  }

  lemma {:induction false} BatchesAddUp(cfg: Settings, counts: seq<nat>, run: seq<Event>, i: nat, n: nat,
                                        a: AuctionId, p: Time)
    requires i <= n <= |run| && n < |counts|
    requires forall k :: i <= k < n ==> counts[k + 1] + Served(cfg, run[k]) <= counts[k] + Joining(cfg, run[k], a, p)
    ensures counts[n] + cfg.dueLimit * Ticks(run, i, n) <= counts[i] + LateWrites(cfg, run, i, n, a, p)
    decreases n
  {
    if i < n {
      BatchesAddUp(cfg, counts, run, i, n - 1, a, p);
      assert counts[n - 1 + 1] + Served(cfg, run[n - 1]) <= counts[n - 1] + Joining(cfg, run[n - 1], a, p);
      Batches(cfg.dueLimit, Ticks(run, i, n - 1));
    }
  }

  /** While `a` waits, every tick serves a full batch of those in line with it, and only late writes let others in. */
  lemma EachTickServesTheLine(cfg: Settings, run: seq<Event>, i: nat, n: nat, a: AuctionId, p: Time)
    requires Valid(cfg, run) && i <= n <= |run| && Past(run, i, n, p)
    requires forall k :: i < k <= n ==> WaitsAfter(cfg, run, k, a, p)
    ensures InFront(cfg, run, n, a, p) + cfg.dueLimit * Ticks(run, i, n)
         <= InFront(cfg, run, i, a, p) + LateWrites(cfg, run, i, n, a, p)
  {
    var counts := seq(n + 1, k requires 0 <= k <= n => InFront(cfg, run, k, a, p));
    forall k | i <= k < n
      ensures counts[k + 1] + Served(cfg, run[k]) <= counts[k] + Joining(cfg, run[k], a, p)
    {
      ServesAt(cfg, run, k, a, p);
    }
    BatchesAddUp(cfg, counts, run, i, n, a, p);
  }

  lemma Batches(limit: nat, n: nat)
    ensures limit * (n + 1) == limit * n + limit
  {
  }

  /** `waits[m]` says whether `a` waits after `m` steps. */
  lemma Waits(cfg: Settings, run: seq<Event>, n: nat, a: AuctionId, p: Time) returns (waits: seq<bool>)
    requires n <= |run|
    ensures |waits| == n + 1
    ensures forall m :: 0 <= m <= n ==> waits[m] == WaitsAfter(cfg, run, m, a, p)
  {
    waits := seq(n + 1, m requires 0 <= m <= n => WaitsAfter(cfg, run, m, a, p));
  }

  lemma MustMove(cfg: Settings, run: seq<Event>, i: nat, n: nat, a: AuctionId, p: Time, waits: seq<bool>)
    requires Valid(cfg, run) && i <= n <= |run| && Past(run, i, n, p) && cfg.dueLimit > 0
    requires Ticks(run, i, n)
          >= (InFront(cfg, run, i, a, p) + LateWrites(cfg, run, i, n, a, p)) / cfg.dueLimit + 1
    requires |waits| == n + 1 && forall m :: 0 <= m <= n ==> waits[m] == WaitsAfter(cfg, run, m, a, p)
    ensures exists m :: i <= m <= n && !waits[m]
  {
    if forall m :: i <= m <= n ==> waits[m] {
      forall m | i <= m <= n
        ensures WaitsAfter(cfg, run, m, a, p)
      {
        assert waits[m];
      }
      EachTickServesTheLine(cfg, run, i, n, a, p);
      TooManyBatches(cfg.dueLimit, Ticks(run, i, n), InFront(cfg, run, i, a, p) + LateWrites(cfg, run, i, n, a, p));
    }
  }

  /** No starvation: an auction due since `p` with `r` others in line is picked, or moved by something else, before
      `(r + w) / limit + 1` ticks have passed, where `w` polls of others, which observed their pages long before,
      write a due time of `p` or before meanwhile; step `k` is the one that does it. */
  lemma NoStarvation(cfg: Settings, run: seq<Event>, i: nat, n: nat, a: AuctionId, p: Time) returns (k: nat)
    requires Valid(cfg, run) && i <= n <= |run| && Past(run, i, n, p) && cfg.dueLimit > 0
    requires WaitsAfter(cfg, run, i, a, p)
    requires Ticks(run, i, n)
          >= (InFront(cfg, run, i, a, p) + LateWrites(cfg, run, i, n, a, p)) / cfg.dueLimit + 1
    ensures i <= k < n && WaitsAfter(cfg, run, k, a, p) && !WaitsAfter(cfg, run, k + 1, a, p)
    ensures !LeavesLineAlone(ActionAt(cfg, run, k, a))
    ensures run[k].Tick? ==> a in run[k].due
  {
    var waits := Waits(cfg, run, n, a, p);
    MustMove(cfg, run, i, n, a, p, waits);
    k := Series.FirstFalse(waits, i, n);
    MovedByAction(cfg, run, k, a, p);
  }

  lemma MovedByAction(cfg: Settings, run: seq<Event>, k: nat, a: AuctionId, p: Time)
    requires Valid(cfg, run) && k < |run|
    requires WaitsAfter(cfg, run, k, a, p) && !WaitsAfter(cfg, run, k + 1, a, p)
    ensures !LeavesLineAlone(ActionAt(cfg, run, k, a))
    ensures run[k].Tick? ==> a in run[k].due
  {
    SliceStep(cfg, run, k, a);
  }

  lemma TooManyBatches(limit: nat, n: nat, r: nat)
    requires limit > 0 && n >= r / limit + 1
    ensures limit * n > r
  {
    var q := r / limit;
    assert r < limit * (q + 1);
    assert limit * (q + 1) <= limit * n;
  }
}
