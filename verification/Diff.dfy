/** Comparison of two auction states (app/domain/diff.py). */
module Diff {
  import opened AuctionTypes

  /** The default of `DiffConfig.price_change_threshold`, the one `poll` uses. */
  const PRICE_CHANGE_THRESHOLD: nat := 1

  /** The contents of an `AuctionStateDiff`. */
  datatype Flags = Flags(
    priceChanged: bool,
    bidCountChanged: bool,
    endTimeChanged: bool,
    buyNowPriceChanged: bool,
    isClosedChanged: bool,
    winnerChanged: bool,
    newBidDetected: bool,
    previous: Option<AuctionState>,
    current: AuctionState)
  {
    predicate HasChanges() {
      priceChanged || bidCountChanged || endTimeChanged || buyNowPriceChanged || isClosedChanged || winnerChanged
    }

    /** The end moved into the future; an end that appears or disappears is not an extension. */
    predicate ExtensionDetected() {
      && endTimeChanged && previous.Some?
      && previous.value.endTime.Some? && current.endTime.Some?
      && previous.value.endTime.value < current.endTime.value
    }
  }

  function Abs(x: int): nat { if x < 0 then -x else x }

  /** Two prices are significantly different: one is missing, or they are `threshold` or more apart. */
  predicate PriceMoved(before: Option<int>, after: Option<int>, threshold: nat) {
    if before.Some? && after.Some? then Abs(after.value - before.value) >= threshold else before != after
  }

  predicate Grew(before: Option<int>, after: Option<int>) {
    before.Some? && after.Some? && before.value < after.value
  }

  predicate NewBid(p: AuctionState, c: AuctionState) {
    || c.newBid == Some(true)
    || Grew(p.bidCount, c.bidCount)
    || (p.currentPrice.Some? && c.currentPrice.Some? && p.currentPrice != c.currentPrice)
  }

  function FlagsOf(previous: Option<AuctionState>, c: AuctionState, threshold: nat): Flags {
    match previous
    case None => Flags(false, false, false, false, false, false, false, None, c)
    case Some(p) =>
      Flags(
        PriceMoved(p.currentPrice, c.currentPrice, threshold),
        p.bidCount != c.bidCount,
        p.endTime != c.endTime,
        p.buyNowPrice != c.buyNowPrice,
        p.isClosed != c.isClosed,
        p.hasWinner != c.hasWinner,
        NewBid(p, c),
        previous,
        c)
  }

  /** The mutable diff object whose flags are raised one by one. */
  class AuctionStateDiff {
    var priceChanged: bool
    var bidCountChanged: bool
    var endTimeChanged: bool
    var buyNowPriceChanged: bool
    var isClosedChanged: bool
    var winnerChanged: bool
    var newBidDetected: bool
    const previous: Option<AuctionState>
    const current: AuctionState

    constructor (previous: Option<AuctionState>, current: AuctionState)
      ensures View() == Flags(false, false, false, false, false, false, false, previous, current)
    {
      priceChanged, bidCountChanged, endTimeChanged := false, false, false;
      buyNowPriceChanged, isClosedChanged, winnerChanged, newBidDetected := false, false, false, false;
      this.previous, this.current := previous, current;
    }

    function View(): Flags
      reads this
    {
      Flags(priceChanged, bidCountChanged, endTimeChanged, buyNowPriceChanged,
            isClosedChanged, winnerChanged, newBidDetected, previous, current)
    }
  }

  method DiffStates(previous: Option<AuctionState>, current: AuctionState, threshold: nat)
    returns (diff: AuctionStateDiff)
    ensures fresh(diff)
    ensures diff.View() == FlagsOf(previous, current, threshold)
  {
    diff := new AuctionStateDiff(previous, current);
    if previous.None? {
      return;
    }
    var p := previous.value;
    if p.currentPrice.Some? && current.currentPrice.Some? {
      diff.priceChanged := Abs(current.currentPrice.value - p.currentPrice.value) >= threshold;
    } else if p.currentPrice != current.currentPrice {
      diff.priceChanged := true;
    }
    diff.bidCountChanged := p.bidCount != current.bidCount;
    diff.endTimeChanged := p.endTime != current.endTime;
    diff.buyNowPriceChanged := p.buyNowPrice != current.buyNowPrice;
    diff.isClosedChanged := p.isClosed != current.isClosed;
    diff.winnerChanged := p.hasWinner != current.hasWinner;
    diff.newBidDetected := NewBid(p, current);
  }

  /** What each flag says about the two states; a first observation raises none. */
  lemma FlagsSay(previous: Option<AuctionState>, c: AuctionState, threshold: nat)
    ensures
      var f := FlagsOf(previous, c, threshold);
      && f.previous == previous && f.current == c
      && (previous.None? ==>
            && !f.priceChanged && !f.bidCountChanged && !f.endTimeChanged && !f.buyNowPriceChanged
            && !f.isClosedChanged && !f.winnerChanged && !f.newBidDetected)
    ensures previous.Some? ==>
      var f, p := FlagsOf(previous, c, threshold), previous.value;
      var bothPriced := p.currentPrice.Some? && c.currentPrice.Some?;
      && (f.priceChanged <==>
            if bothPriced
            then || c.currentPrice.value - p.currentPrice.value >= threshold
                 || p.currentPrice.value - c.currentPrice.value >= threshold
            else p.currentPrice.Some? || c.currentPrice.Some?)
      && (f.bidCountChanged <==> p.bidCount != c.bidCount)
      && (f.endTimeChanged <==> p.endTime != c.endTime)
      && (f.buyNowPriceChanged <==> p.buyNowPrice != c.buyNowPrice)
      && (f.isClosedChanged <==> p.isClosed != c.isClosed)
      && (f.winnerChanged <==> p.hasWinner != c.hasWinner)
      && (f.newBidDetected <==>
            || c.newBid == Some(true)
            || (p.bidCount.Some? && c.bidCount.Some? && p.bidCount.value < c.bidCount.value)
            || (bothPriced && p.currentPrice.value != c.currentPrice.value))
  {
  }

  /** At the threshold `poll` uses, a diff has changes exactly when one of the six compared fields differs. */
  lemma ChangedIffFieldsDiffer(p: AuctionState, c: AuctionState)
    ensures FlagsOf(Some(p), c, PRICE_CHANGE_THRESHOLD).HasChanges() <==> ComparedFields(p) != ComparedFields(c)
  {
  }

  /** The stored state after a sequence of observations, each compared with the last *stored* one. */
  ghost function Stored(observations: seq<AuctionState>, threshold: nat): Option<AuctionState> {
    if observations == [] then None
    else
      var before := Stored(observations[..|observations| - 1], threshold);
      var current := observations[|observations| - 1];
      if before.None? || FlagsOf(before, current, threshold).HasChanges() then Some(current) else before
  }

  /** Compression loses at most `threshold - 1` of the price however long the run is, and nothing of the
      other five fields: small moves do not add up to an unnoticed drift. */
  lemma NoDrift(observations: seq<AuctionState>, threshold: nat)
    requires observations != [] && threshold >= 1
    ensures Stored(observations, threshold).Some?
    ensures
      var stored := Stored(observations, threshold).value;
      var seen := observations[|observations| - 1];
      && ComparedFields(stored).(currentPrice := None) == ComparedFields(seen).(currentPrice := None)
      && stored.currentPrice.Some? == seen.currentPrice.Some?
      && (seen.currentPrice.Some? ==> Abs(seen.currentPrice.value - stored.currentPrice.value) <= threshold - 1)
  {
  }
}
