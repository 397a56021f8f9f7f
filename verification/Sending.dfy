/** Sending one message with retries (app/notifications/sender.py). */
module Sending {
  import opened AuctionTypes
  import opened Backoff

  /** How one `send_message` call ends. `OtherError` is any exception that is not a `TelegramAPIError`. Either kind
      of error can hide that the message got through, when only the reply is lost. */
  datatype Reply =
    | Accepted
    | RetryAfter(delay: int)
    | Forbidden
    | ApiError(gotThrough: bool)
    | OtherError(gotThrough: bool)
  {
    predicate Retryable() { RetryAfter? || ApiError? }

    /** The call puts the message into the chat. */
    predicate GetsThrough() {
      match this
      case Accepted => true
      case ApiError(gotThrough) => gotThrough
      case OtherError(gotThrough) => gotThrough
      case _ => false
    }

    predicate IsLost() { !Accepted? && GetsThrough() }
  }

  datatype SendResult = Delivered | NoText | Raised(cause: Reply)

  const PAUSE_CAP: int := 120 * SECOND

  /** app/config.py:45-46 */
  const DEFAULT_MAX_RETRIES: int := 5
  const DEFAULT_RETRY_BASE: int := 5 * SECOND

  /** The Bot API: `replies(k)` is how the `k`-th call ends, `accepted` the messages that got into the chat. */
  class Telegram {
    const replies: nat -> Reply
    var calls: nat
    var accepted: seq<string>
    var slept: int

    constructor (replies: nat -> Reply)
      ensures this.replies == replies && calls == 0 && accepted == [] && slept == 0
    {
      this.replies, calls, accepted, slept := replies, 0, [], 0;
    }

    method SendMessage(text: string) returns (r: Reply)
      modifies this
      ensures r == replies(old(calls)) && calls == old(calls) + 1 && slept == old(slept)
      ensures
        var got := r.Accepted? || (r.ApiError? && r.gotThrough) || (r.OtherError? && r.gotThrough);
        accepted == if got then old(accepted) + [text] else old(accepted)
    {
      r := replies(calls);
      calls := calls + 1;
      if r.GetsThrough() {
        accepted := accepted + [text];
      }
    }
  }

  /** Whether a loop that began with call `first` ends with its `attempt`-th call. */
  predicate EndsAt(replies: nat -> Reply, first: nat, attempt: nat, maxRetries: int)
    requires attempt > 0
  {
    !replies(first + attempt - 1).Retryable() || attempt > maxRetries
  }

  /** How long the loop sleeps after its `attempt`-th call, if it goes on. */
  function Pause(r: Reply, attempt: int, base: int): int {
    match r
    case RetryAfter(delay) => Max(delay, SECOND)
    case ApiError(_) => Wait(attempt, base, PAUSE_CAP)
    case _ => 0
  }

  /** The pauses after the first `n` of the calls that begin with call `first`. */
  function TotalPause(replies: nat -> Reply, first: nat, n: nat, base: int): int {
    if n == 0 then 0 else TotalPause(replies, first, n - 1, base) + Pause(replies(first + n - 1), n, base)
  }

  /** The chat after `n` calls from call `first` on that each carry `text`. */
  function Chat(before: seq<string>, text: string, replies: nat -> Reply, first: nat, n: nat): seq<string> {
    if n == 0 then before
    else
      var chat := Chat(before, text, replies, first, n - 1);
      if replies(first + n - 1).GetsThrough() then chat + [text] else chat
  }

  /** The messages that got through although their calls raised, among `n` calls from call `first` on. */
  function Lost(replies: nat -> Reply, first: nat, n: nat): nat {
    if n == 0 then 0 else Lost(replies, first, n - 1) + if replies(first + n - 1).IsLost() then 1 else 0
  }

  lemma {:induction false} NothingLost(replies: nat -> Reply, first: nat, n: nat)
    ensures Lost(replies, first, n) == 0 <==> forall k :: first <= k < first + n ==> !replies(k).IsLost()
  {
    if n > 0 {
      NothingLost(replies, first, n - 1);
    }
  }

  /** The chat grows by the text, once for every lost reply and once if the last call was accepted. */
  lemma {:induction false} ChatGrows(before: seq<string>, text: string, replies: nat -> Reply, first: nat, n: nat)
    requires forall k :: first <= k < first + n - 1 ==> !replies(k).Accepted?
    ensures
      var chat := Chat(before, text, replies, first, n);
      && |chat| == |before| + Lost(replies, first, n) + (if n > 0 && replies(first + n - 1).Accepted? then 1 else 0)
      && before <= chat && forall i :: |before| <= i < |chat| ==> chat[i] == text
  {
    if n > 0 {
      ChatGrows(before, text, replies, first, n - 1);
    }
  }

  lemma NoCallsYet(before: seq<string>, text: string, replies: nat -> Reply, first: nat, base: int)
    ensures Chat(before, text, replies, first, 0) == before && TotalPause(replies, first, 0, base) == 0
  {
  }

  lemma OneMoreCall(before: seq<string>, text: string, replies: nat -> Reply, first: nat, n: nat, base: int)
    ensures
      var chat := Chat(before, text, replies, first, n);
      Chat(before, text, replies, first, n + 1) == if replies(first + n).GetsThrough() then chat + [text] else chat
    ensures TotalPause(replies, first, n + 1, base)
         == TotalPause(replies, first, n, base) + Pause(replies(first + n), n + 1, base)
  {
  }

  class TelegramSender {
    const bot: Telegram
    const maxRetries: int
    const retryBase: int

    constructor (bot: Telegram, maxRetries: int, retryBase: int)
      ensures this.bot == bot && this.maxRetries == maxRetries && this.retryBase == retryBase
    {
      this.bot, this.maxRetries, this.retryBase := bot, maxRetries, retryBase;
    }

    /** `send`: it makes `n` calls, where the `n`-th is the first that ends the loop; at most `maxRetries + 1`. The
        message gets into the chat once if that call accepts it, and once more for every lost reply. */
    method Send(text: Option<string>) returns (result: SendResult, ghost n: nat)
      modifies bot
      ensures bot.calls == old(bot.calls) + n
      ensures text.None? ==> result == NoText && n == 0 && bot.slept == old(bot.slept)
      ensures text.Some? ==>
        && 1 <= n <= Max(maxRetries, 0) + 1
        && EndsAt(bot.replies, old(bot.calls), n, maxRetries)
        && (var last := bot.replies(old(bot.calls) + n - 1);
            last.Accepted? || last.Forbidden? || last.OtherError? || n == Max(maxRetries, 0) + 1)
        && (forall k :: old(bot.calls) <= k < bot.calls - 1 ==> bot.replies(k).RetryAfter? || bot.replies(k).ApiError?)
        && (forall k :: 1 <= k < n ==> !EndsAt(bot.replies, old(bot.calls), k, maxRetries))
        && bot.slept == old(bot.slept) + TotalPause(bot.replies, old(bot.calls), n - 1, retryBase)
        && result == (var last := bot.replies(old(bot.calls) + n - 1);
                      if last.Accepted? then Delivered else Raised(last))
      ensures result.Delivered? ==> text.Some?
      ensures bot.accepted == if text.None? then old(bot.accepted)
                              else Chat(old(bot.accepted), text.value, bot.replies, old(bot.calls), n)
    {
      if text.None? {
        return NoText, 0;
      }
      ghost var first := bot.calls;
      var attempt := 0;
      NoCallsYet(old(bot.accepted), text.value, bot.replies, first, retryBase);
      hide Chat, TotalPause, Wait;
      while true
        invariant 0 <= attempt <= Max(maxRetries, 0)
        invariant bot.calls == first + attempt
        invariant bot.accepted == Chat(old(bot.accepted), text.value, bot.replies, first, attempt)
        invariant forall k :: 1 <= k <= attempt ==> !EndsAt(bot.replies, first, k, maxRetries)
        invariant forall k :: first <= k < first + attempt ==> bot.replies(k).RetryAfter? || bot.replies(k).ApiError?
        invariant bot.slept == old(bot.slept) + TotalPause(bot.replies, first, attempt, retryBase)
        decreases Max(maxRetries, 0) - attempt
      {
        OneMoreCall(old(bot.accepted), text.value, bot.replies, first, attempt, retryBase);
        attempt := attempt + 1;
        var r := bot.SendMessage(text.value);
        match r
        case Accepted =>
          return Delivered, attempt;
        case RetryAfter(delay) =>
          var retryAfter := Max(delay, SECOND);
          if attempt > maxRetries {
            return Raised(r), attempt;
          }
          bot.slept := bot.slept + retryAfter;
        case ApiError(_) =>
          if attempt > maxRetries {
            return Raised(r), attempt;
          }
          bot.slept := bot.slept + Wait(attempt, retryBase, PAUSE_CAP);
        case _ =>
          return Raised(r), attempt;
      }
    }
  }

  /** How one more call with its pause changes the time slept: flood control is waited out for the time that Telegram
      asks for, but at least a second; the pause after an API error has its place in the doubling series; no other
      reply is followed by a pause. */
  lemma PauseAfterReply(replies: nat -> Reply, first: nat, n: nat, base: int)
    ensures
      var pause := TotalPause(replies, first, n + 1, base) - TotalPause(replies, first, n, base);
      match replies(first + n)
      case RetryAfter(delay) => pause == if delay < 1_000_000 then 1_000_000 else delay
      case ApiError(_) => pause == Wait(n + 1, base, 120_000_000)
      case _ => pause == 0
  {
  }

  /** app/workers/tasks.py:105, app/workers/settings.py:32 */
  const SEND_LOCK_TTL: int := 60 * SECOND
  const JOB_TIMEOUT: int := 120 * SECOND

  lemma {:induction false} ApiErrorPauses(replies: nat -> Reply, first: nat, n: nat, base: int)
    requires forall k :: first <= k < first + n ==> replies(k).ApiError?
    ensures TotalPause(replies, first, n, base) == TotalWait(n, base, PAUSE_CAP)
  {
    if n > 0 {
      ApiErrorPauses(replies, first, n - 1, base);
    }
  }

  lemma PauseAfter(replies: nat -> Reply, first: nat, n: nat)
    requires n <= DEFAULT_MAX_RETRIES && forall k :: first <= k < first + n ==> replies(k).ApiError?
    ensures TotalPause(replies, first, n, DEFAULT_RETRY_BASE) == DEFAULT_RETRY_BASE * (Power2(n) - 1)
  {
    ApiErrorPauses(replies, first, n, DEFAULT_RETRY_BASE);
    assert Power2(4) == 16 && Power2(3) == 8 && Power2(2) == 4;
    TotalWaitUncapped(n, DEFAULT_RETRY_BASE, PAUSE_CAP);
  }

  /** Which of the default retries fit: after `n` API errors the next call starts within the 60 seconds of the lock
      if and only if `n` is at most 3, and within the job timeout if and only if `n` is at most 4; after four the
      fifth attempt starts 75 seconds after the first, and the sixth would start after 155 seconds. */
  lemma DefaultRetriesOutlastLease(replies: nat -> Reply, first: nat, n: nat)
    requires n <= DEFAULT_MAX_RETRIES && forall k :: first <= k < first + n ==> replies(k).ApiError?
    ensures TotalPause(replies, first, n, DEFAULT_RETRY_BASE) <= SEND_LOCK_TTL <==> n <= 3
    ensures TotalPause(replies, first, n, DEFAULT_RETRY_BASE) <= JOB_TIMEOUT <==> n <= 4
    ensures n == 4 ==> TotalPause(replies, first, n, DEFAULT_RETRY_BASE) == 75 * SECOND
    ensures n == 5 ==> TotalPause(replies, first, n, DEFAULT_RETRY_BASE) == 155 * SECOND
  {
    PauseAfter(replies, first, n);
    assert Power2(5) == 32 && Power2(4) == 16 && Power2(3) == 8 && Power2(2) == 4;
  }
}
