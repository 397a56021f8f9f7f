/** Values shared by every part of the model.

  Instants and durations are whole microseconds, the resolution of Python's
  `datetime` and `timedelta`; an optional column or field is an `Option`.
 */
module AuctionTypes {

  datatype Option<+T> = None | Some(value: T)

  /** Microseconds since the epoch. */
  type Time = int

  const SECOND: int := 1_000_000
  const MINUTE: int := 60 * SECOND
  const HOUR: int := 60 * MINUTE

  /** The external id; `auctions.external_id` is unique, so it also serves as the row's key. */
  type AuctionId = string

  /** What one fetch of an auction page yields. */
  datatype AuctionState = AuctionState(
    auctionId: AuctionId,
    title: Option<string>,
    currentPrice: Option<int>,
    bidCount: Option<int>,
    startTime: Option<Time>,
    endTime: Option<Time>,
    buyNowPrice: Option<int>,
    quantity: Option<int>,
    isStore: Option<bool>,
    isClosed: bool,
    hasWinner: Option<bool>,
    newBid: Option<bool>,
    observedAt: Time)
  {
    function UntilEnd(): Option<int> {
      if endTime.None? then None else Some(endTime.value - observedAt)
    }
  }

  /** The six fields a poll compares, taken out of a state, a snapshot or an auction row. */
  datatype Compared = Compared(
    currentPrice: Option<int>,
    bidCount: Option<int>,
    endTime: Option<Time>,
    buyNowPrice: Option<int>,
    isClosed: bool,
    hasWinner: Option<bool>)

  function ComparedFields(s: AuctionState): Compared {
    Compared(s.currentPrice, s.bidCount, s.endTime, s.buyNowPrice, s.isClosed, s.hasWinner)
  }

  function Max(x: int, y: int): int { if x < y then y else x }

  function Min(x: int, y: int): int { if x < y then x else y }
}
