/** Which notifications a poll calls for, and the keys that make them idempotent
    (app/domain/notifications.py). */
module Notifications {
  import opened AuctionTypes
  import opened Diff
  import opened Lists

  datatype Kind = T30m | T15m | T5m | Change | Extension | Closed {
    predicate Timed() { T30m? || T15m? || T5m? }
  }

  datatype Thresholds = Thresholds(t30m: int, t15m: int, t5m: int) {
    function For(kind: Kind): int
      requires kind.Timed()
    {
      match kind case T30m => t30m case T15m => t15m case T5m => t5m
    }
  }

  const DEFAULT_THRESHOLDS := Thresholds(30 * MINUTE, 15 * MINUTE, 5 * MINUTE)

  datatype Decision = Decision(kind: Kind, previous: Option<AuctionState>, current: Option<AuctionState>)

  /** The instant `threshold` before `end` lies after the previous poll and not after this one. */
  predicate Crosses(end: Time, threshold: int, previousPoll: Time, now: Time) {
    previousPoll < end - threshold <= now
  }

  const TIMED_KINDS: seq<Kind> := [T30m, T15m, T5m]

  /** The first `n` timed kinds whose crossing lies in the window. */
  function TimedKinds(n: nat, end: Time, previousPoll: Time, now: Time, th: Thresholds): seq<Kind>
    requires n <= 3
  {
    if n == 0 then []
    else
      var kind := TIMED_KINDS[n - 1];
      TimedKinds(n - 1, end, previousPoll, now, th) +
      if Crosses(end, th.For(kind), previousPoll, now) then [kind] else []
  }

  /** The decision table for everything that is not timed. */
  function ChangeKinds(flags: Flags, closedNow: bool): seq<Kind> {
    if flags.isClosedChanged && closedNow then [Closed]
    else if flags.ExtensionDetected() then
      if flags.priceChanged || flags.bidCountChanged || flags.newBidDetected then [Extension, Change] else [Extension]
    else if flags.HasChanges() then [Change]
    else []
  }

  function KindsOf(hasPrevious: bool, c: AuctionState, flags: Flags, previousPoll: Time, now: Time, th: Thresholds)
    : seq<Kind>
  {
    if !hasPrevious then []
    else
      (if c.endTime.Some? then TimedKinds(3, c.endTime.value, previousPoll, now, th) else [])
      + ChangeKinds(flags, c.isClosed)
  }

  function Tagged(kinds: seq<Kind>, previous: Option<AuctionState>, c: AuctionState): (ds: seq<Decision>)
    ensures |ds| == |kinds|
    ensures forall i :: 0 <= i < |kinds| ==> ds[i] == Decision(kinds[i], previous, Some(c))
  {
    seq(|kinds|, i requires 0 <= i < |kinds| => Decision(kinds[i], previous, Some(c)))
  }

  lemma TaggedAppend(a: seq<Kind>, b: seq<Kind>, previous: Option<AuctionState>, c: AuctionState)
    ensures Tagged(a + b, previous, c) == Tagged(a, previous, c) + Tagged(b, previous, c)
  {
  }

  lemma NoneTimedYet(end: Time, previousPoll: Time, now: Time, th: Thresholds)
    ensures TimedKinds(0, end, previousPoll, now, th) == []
  {
  }

  lemma OneMoreKind(n: nat, end: Time, previousPoll: Time, now: Time, th: Thresholds)
    requires n < 3
    ensures TimedKinds(n + 1, end, previousPoll, now, th)
         == TimedKinds(n, end, previousPoll, now, th)
            + if Crosses(end, th.For(TIMED_KINDS[n]), previousPoll, now) then [TIMED_KINDS[n]] else []
  {
  }

  /** `evaluate_notifications`: the timed loop, then the if-chain, appending to one list. */
  method EvaluateNotifications(previous: Option<AuctionState>, current: AuctionState, diff: AuctionStateDiff,
                               previousPoll: Time, now: Time, th: Thresholds)
    returns (decisions: seq<Decision>)
    ensures decisions
         == Tagged(KindsOf(previous.Some?, current, diff.View(), previousPoll, now, th), previous, current)
  {
    decisions := [];
    if previous.None? {
      return;
    }
    hide TimedKinds;
    ghost var timed: seq<Kind> := [];
    if current.endTime.Some? {
      var end := current.endTime.value;
      NoneTimedYet(end, previousPoll, now, th);
      for i := 0 to 3
        invariant timed == TimedKinds(i, end, previousPoll, now, th)
        invariant decisions == Tagged(timed, previous, current)
      {
        var kind := TIMED_KINDS[i];
        var crossing := end - th.For(kind);
        OneMoreKind(i, end, previousPoll, now, th);
        if previousPoll < crossing <= now {
          TaggedAppend(timed, [kind], previous, current);
          decisions := decisions + [Decision(kind, previous, Some(current))];
          timed := timed + [kind];
        }
      }
    }
    TaggedAppend(timed, ChangeKinds(diff.View(), current.isClosed), previous, current);
    var flags := diff.View();
    if flags.isClosedChanged && current.isClosed {
      decisions := decisions + [Decision(Closed, previous, Some(current))];
    } else if flags.ExtensionDetected() {
      decisions := decisions + [Decision(Extension, previous, Some(current))];
      if flags.HasChanges() && (flags.priceChanged || flags.bidCountChanged || flags.newBidDetected) {
        decisions := decisions + [Decision(Change, previous, Some(current))];
      }
    } else if flags.HasChanges() {
      decisions := decisions + [Decision(Change, previous, Some(current))];
    }
  }

  lemma {:induction false} TimedKindsExact(n: nat, end: Time, previousPoll: Time, now: Time, th: Thresholds, kind: Kind)
    requires n <= 3
    ensures kind in TimedKinds(n, end, previousPoll, now, th)
       <==> kind in TIMED_KINDS[..n] && kind.Timed() && Crosses(end, th.For(kind), previousPoll, now)
  {
    if n > 0 {
      TimedKindsExact(n - 1, end, previousPoll, now, th, kind);
      assert TIMED_KINDS[..n] == TIMED_KINDS[..n - 1] + [TIMED_KINDS[n - 1]];
    }
  }

  /** A timed notification is decided exactly when a previous state exists, the end is known and its crossing
      lies in the window. */
  lemma TimedDecidedIff(hasPrevious: bool, c: AuctionState, flags: Flags, previousPoll: Time, now: Time,
                        th: Thresholds, kind: Kind)
    requires kind.Timed()
    ensures kind in KindsOf(hasPrevious, c, flags, previousPoll, now, th)
       <==> hasPrevious && c.endTime.Some? && Crosses(c.endTime.value, th.For(kind), previousPoll, now)
  {
    if c.endTime.Some? {
      TimedKindsExact(3, c.endTime.value, previousPoll, now, th, kind);
      assert TIMED_KINDS[..3] == [T30m, T15m, T5m];
      assert kind == TIMED_KINDS[..3][0] || kind == TIMED_KINDS[..3][1] || kind == TIMED_KINDS[..3][2];
    }
  }

  lemma {:induction false} TimedKindsInOrder(n: nat, end: Time, previousPoll: Time, now: Time, th: Thresholds)
    requires n <= 3
    ensures Distinct(TimedKinds(n, end, previousPoll, now, th))
    ensures forall k :: k in TimedKinds(n, end, previousPoll, now, th) ==> k in TIMED_KINDS[..n]
  {
    if n > 0 {
      TimedKindsInOrder(n - 1, end, previousPoll, now, th);
      assert TIMED_KINDS[..n] == TIMED_KINDS[..n - 1] + [TIMED_KINDS[n - 1]];
      assert TIMED_KINDS[n - 1] !in TIMED_KINDS[..n - 1];
      var init := TimedKinds(n - 1, end, previousPoll, now, th);
      assert forall i :: 0 <= i < |init| ==> init[i] in init;
    }
  }

  /** The non-timed part of the table, for a diff that `poll` computed. */
  lemma ChangeTable(p: AuctionState, c: AuctionState, kinds: seq<Kind>)
    requires kinds == ChangeKinds(FlagsOf(Some(p), c, PRICE_CHANGE_THRESHOLD), c.isClosed)
    ensures kinds in {[], [Closed], [Extension], [Extension, Change], [Change]}
    ensures kinds != [] <==> ComparedFields(p) != ComparedFields(c)
    ensures Closed in kinds <==> !p.isClosed && c.isClosed
    ensures Extension in kinds <==>
      && !(!p.isClosed && c.isClosed)
      && p.endTime.Some? && c.endTime.Some? && p.endTime.value < c.endTime.value
    ensures Extension in kinds ==>
      (Change in kinds <==> p.currentPrice != c.currentPrice || p.bidCount != c.bidCount || c.newBid == Some(true))
  {
    ChangedIffFieldsDiffer(p, c);
  }

  /** All kinds one poll decides, when it compares `c` with a previous state `p`. */
  function PollKinds(p: AuctionState, c: AuctionState, previousPoll: Time, now: Time, th: Thresholds): seq<Kind> {
    KindsOf(true, c, FlagsOf(Some(p), c, PRICE_CHANGE_THRESHOLD), previousPoll, now, th)
  }

  /** The table as a whole: something non-timed is decided exactly when a compared field changed; kinds never
      repeat; closing is reported alone among the non-timed kinds, exactly on the change from open to closed;
      an extension is reported exactly for a later end on an auction that is not closing. */
  lemma DecisionTable(p: AuctionState, c: AuctionState, previousPoll: Time, now: Time, th: Thresholds)
    ensures (exists k :: k in PollKinds(p, c, previousPoll, now, th) && !k.Timed())
       <==> ComparedFields(p) != ComparedFields(c)
    ensures Distinct(PollKinds(p, c, previousPoll, now, th))
    ensures Closed in PollKinds(p, c, previousPoll, now, th) <==> !p.isClosed && c.isClosed
    ensures Closed in PollKinds(p, c, previousPoll, now, th) ==>
      Extension !in PollKinds(p, c, previousPoll, now, th) && Change !in PollKinds(p, c, previousPoll, now, th)
    ensures Extension in PollKinds(p, c, previousPoll, now, th) <==>
      && !(!p.isClosed && c.isClosed)
      && p.endTime.Some? && c.endTime.Some? && p.endTime.value < c.endTime.value
  {
    var timed := if c.endTime.Some? then TimedKinds(3, c.endTime.value, previousPoll, now, th) else [];
    var changes := ChangeKinds(FlagsOf(Some(p), c, PRICE_CHANGE_THRESHOLD), c.isClosed);
    ChangeTable(p, c, changes);
    if c.endTime.Some? {
      TimedKindsInOrder(3, c.endTime.value, previousPoll, now, th);
    }
    TimedThenChanges(timed, changes);
    assert PollKinds(p, c, previousPoll, now, th) == timed + changes;
  }

  lemma TimedThenChanges(timed: seq<Kind>, changes: seq<Kind>)
    requires Distinct(timed) && forall k :: k in timed ==> k.Timed()
    requires changes in {[], [Closed], [Extension], [Extension, Change], [Change]}
    ensures Distinct(timed + changes)
    ensures forall k: Kind :: !k.Timed() ==> (k in timed + changes <==> k in changes)
    ensures (exists k: Kind :: k in timed + changes && !k.Timed()) <==> changes != []
  {
    assert forall k :: k in changes ==> !k.Timed();
    assert changes != [] ==> changes[0] in timed + changes;
    assert forall i :: 0 <= i < |timed| ==> timed[i] in timed;
    assert forall i :: 0 <= i < |changes| ==> changes[i] in changes;
  }

  /** Idempotency keys: the end instant for timed kinds, the snapshot id for the others. */
  datatype Key = EndKey(end: Time) | SnapshotKey(id: int)

  datatype KeyResult = Keyed(key: Key) | ValueError

  function DedupKeyFor(d: Decision, snapshotId: Option<int>): KeyResult {
    if d.kind.Timed() then
      if d.current.None? || d.current.value.endTime.None? then ValueError
      else Keyed(EndKey(d.current.value.endTime.value))
    else if snapshotId.None? then ValueError
    else Keyed(SnapshotKey(snapshotId.value))
  }

  ghost predicate AllKeyed(ds: seq<Decision>, snapshotId: Option<int>) {
    forall d :: d in ds ==> DedupKeyFor(d, snapshotId).Keyed?
  }

  /** No `ValueError` can be raised for the decisions of one poll: a snapshot was stored whenever a decision
      needs its id, and a timed decision carries an end. */
  lemma EveryDecisionHasKey(previous: Option<AuctionState>, c: AuctionState, previousPoll: Time, now: Time,
                            th: Thresholds, snapshotId: Option<int>)
    requires
      var flags := FlagsOf(previous, c, PRICE_CHANGE_THRESHOLD);
      previous.None? || flags.HasChanges() ==> snapshotId.Some?
    ensures
      var flags := FlagsOf(previous, c, PRICE_CHANGE_THRESHOLD);
      AllKeyed(Tagged(KindsOf(previous.Some?, c, flags, previousPoll, now, th), previous, c), snapshotId)
  {
    var flags := FlagsOf(previous, c, PRICE_CHANGE_THRESHOLD);
    var kinds := KindsOf(previous.Some?, c, flags, previousPoll, now, th);
    var ds := Tagged(kinds, previous, c);
    forall d | d in ds
      ensures DedupKeyFor(d, snapshotId).Keyed?
    {
      var i :| 0 <= i < |ds| && ds[i] == d;
      var timed := if c.endTime.Some? then TimedKinds(3, c.endTime.value, previousPoll, now, th) else [];
      if previous.Some? && i < |timed| {
        TimedKindsInOrder(3, c.endTime.value, previousPoll, now, th);
        assert kinds[i] in timed;
      }
    }
  }
}
