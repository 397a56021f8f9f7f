/** `send_notification` jobs for one notification, step by step and interleaved (app/workers/tasks.py:75-127). */
module SendJobs {
  import opened AuctionTypes
  import opened Tables
  import L = Lock
  import opened Sending

  /** How far a job has come: it has not read the row yet; it found the row unsent; it holds the lock; its send
      succeeded; its send raised; it recorded the outcome; it is over. */
  datatype Phase = Fresh | Checked | Holding | Accepting | Refused | Marked | Over {
    predicate InSend() { Holding? || Accepting? || Refused? }
  }

  /** The row's status (`None` once the row is deleted), the live lock's token, the jobs by their lock tokens, and
      how often the message got into the chat. */
  datatype World = World(row: Option<Status>, holder: Option<L.Token>, jobs: map<L.Token, Phase>, accepted: nat)

  const INITIAL: World := World(Some(Status.Pending), None, map[], 0)

  datatype Action =
    | Begin(job: L.Token)
    | Check(job: L.Token)
    | Take(job: L.Token)
    | Send(job: L.Token, ok: bool, lost: nat)
    | Mark(job: L.Token)
    | Unlock(job: L.Token)
    | Abort(job: L.Token)
    | Crash(job: L.Token)
    | Expire
    | Remove

  /** How often one send puts the message into the chat. */
  function Copies(ok: bool, lost: nat): nat { if ok then lost + 1 else lost }

  predicate In(w: World, j: L.Token, phase: Phase) { j in w.jobs && w.jobs[j] == phase }

  function To(w: World, j: L.Token, phase: Phase): World { w.(jobs := w.jobs[j := phase]) }

  /** The release script: only the token's own entry is deleted. */
  function Unlocked(w: World, j: L.Token): World { if w.holder == Some(j) then w.(holder := None) else w }

  function Recorded(row: Option<Status>, status: Status): Option<Status> {
    if row.None? then None else Some(status)
  }

  /** An action of a job in another phase has no effect. `Send` is the whole retry loop: it returns (`ok`) or raises,
      and `lost` of its calls got the message through although they raised; a job that is cancelled or dies in the
      middle of it is a send that raised, followed by `Abort` or `Crash`. `Begin` stands for the first delivery and
      for every recovery; `Abort` for a cancelled job, whose lock is released; `Crash` for a dead worker, whose lock
      stays until it expires; `Remove` for the deletion of the row with its link. */
  function Step(w: World, e: Action): World {
    match e
    case Begin(j) => if j in w.jobs then w else To(w, j, Fresh)
    case Check(j) =>
      if !In(w, j, Fresh) then w
      else To(w, j, if w.row.Some? && !w.row.value.Sent? then Checked else Over)
    case Take(j) =>
      if !In(w, j, Checked) then w
      else if w.holder.None? then To(w, j, Holding).(holder := Some(j))
      else To(w, j, Over)
    case Send(j, ok, lost) =>
      if !In(w, j, Holding) then w
      else To(w, j, if ok then Accepting else Refused).(accepted := w.accepted + Copies(ok, lost))
    case Mark(j) =>
      if In(w, j, Accepting) then To(w, j, Marked).(row := Recorded(w.row, Status.Sent))
      else if In(w, j, Refused) then To(w, j, Marked).(row := Recorded(w.row, Status.Failed))
      else w
    case Unlock(j) => if In(w, j, Marked) then Unlocked(To(w, j, Over), j) else w
    case Abort(j) => if j in w.jobs && w.jobs[j].InSend() then Unlocked(To(w, j, Over), j) else w
    case Crash(j) => if j in w.jobs then To(w, j, Over) else w
    case Expire => w.(holder := None)
    case Remove => w.(row := None)
  }

  // ---------------------------------------------------------------- the job

  datatype JobResult = NotFound | AlreadySent | Locked | SentNow | RaisedBySend

  class SendJob {
    const session: Session
    const redisLock: L.RedisLock
    const sender: TelegramSender
    const id: int
    var text: Option<string>
    ghost var phase: Phase

    constructor (session: Session, redisLock: L.RedisLock, sender: TelegramSender, id: int)
      requires !redisLock.held
      ensures this.session == session && this.redisLock == redisLock && this.sender == sender && this.id == id
      ensures phase == Fresh
    {
      this.session, this.redisLock, this.sender, this.id := session, redisLock, sender, id;
      text, phase := None, Fresh;
    }

    ghost function Row(): Option<Status>
      reads session
    {
      if id in session.notes then Some(session.notes[id].status) else None
    }

    ghost function Holder(): Option<L.Token>
      reads redisLock, redisLock.redis
    {
      var entry := redisLock.redis.Get(redisLock.key);
      if entry.Some? then Some(entry.value.token) else None
    }

    /** This job's part of the world; `held` matters from the acquisition on. */
    ghost predicate Agrees(w: World)
      reads this, session, redisLock, redisLock.redis
    {
      && w.row == Row() && w.holder == Holder() && In(w, redisLock.token, phase)
      && (phase.InSend() || phase.Marked? ==> redisLock.held)
    }

    ghost function LockState(): L.KeyState
      reads redisLock, redisLock.redis
    {
      var store := redisLock.redis.store;
      L.KeyState(if redisLock.key in store then Some(store[redisLock.key]) else None,
               if redisLock.held then {redisLock.token} else {})
    }

    /** Read the row: `None` means go on. */
    method CheckStatus(ghost w: World) returns (stop: Option<JobResult>)
      requires Agrees(w) && phase == Fresh
      modifies this
      ensures Agrees(Step(w, Check(redisLock.token)))
      ensures stop == (if Row().None? then Some(NotFound) else if Row().value.Sent? then Some(AlreadySent) else None)
      ensures stop.None? <==> phase == Checked
      ensures stop.None? ==> text == session.notes[id].text
    {
      if id !in session.notes {
        phase := Over;
        return Some(NotFound);
      }
      var row := session.notes[id];
      if row.status.Sent? {
        phase := Over;
        return Some(AlreadySent);
      }
      text, phase := row.text, Checked;
      return None;
    }

    method AcquireLock(ghost w: World) returns (ok: bool)
      requires Agrees(w) && phase == Checked && redisLock.ttl > 0
      modifies this`phase, redisLock`held, redisLock.redis`store
      ensures Agrees(Step(w, Take(redisLock.token)))
      ensures ok <==> old(Holder()).None?
      ensures phase == if ok then Holding else Over
      ensures ok ==> Holder() == Some(redisLock.token) && redisLock.held
    {
      ok := redisLock.TryAcquire(LockState());
      phase := if ok then Holding else Over;
    }

    method SendText(ghost w: World) returns (result: SendResult, ghost lost: nat)
      requires Agrees(w) && phase == Holding
      modifies this`phase, sender.bot
      ensures Agrees(Step(w, Send(redisLock.token, result.Delivered?, lost)))
      ensures phase == if result.Delivered? then Accepting else Refused
      ensures |sender.bot.accepted| == |old(sender.bot.accepted)| + Copies(result.Delivered?, lost)
      ensures
        var first, last := old(sender.bot.calls), sender.bot.calls;
        first <= last && lost == Lost(sender.bot.replies, first, last - first)
    {
      ghost var first, before := sender.bot.calls, sender.bot.accepted;
      ghost var n;
      result, n := sender.Send(text);
      lost := Lost(sender.bot.replies, first, n);
      if text.Some? {
        forall k | first <= k < first + n - 1
          ensures !sender.bot.replies(k).Accepted?
        {
          assert !EndsAt(sender.bot.replies, first, k - first + 1, sender.maxRetries);
        }
        ChatGrows(before, text.value, sender.bot.replies, first, n);
      }
      phase := if result.Delivered? then Accepting else Refused;
    }

    method RecordOutcome(ghost w: World, result: SendResult, now: Time)
      requires Agrees(w) && phase == if result.Delivered? then Accepting else Refused
      modifies this`phase, session`notes
      ensures Agrees(Step(w, Mark(redisLock.token))) && phase == Marked
      ensures
        var found := old(session.notes);
        var status := if result.Delivered? then Status.Sent else Status.Failed;
        session.notes == if id in found then found[id := Settled(found[id], status, now)] else found
    {
      if result.Delivered? {
        session.MarkSent(id, now);
      } else {
        session.MarkFailed(id);
      }
      phase := Marked;
    }

    method ReleaseLock(ghost w: World)
      requires Agrees(w) && phase == Marked
      modifies this`phase, redisLock`held, redisLock.redis`store
      ensures Agrees(Step(w, Unlock(redisLock.token))) && phase == Over
    {
      var released := redisLock.Release(LockState());
      phase := Over;
    }

    /** The locked part of `send_notification` when nothing else runs in between. */
    method Deliver(now: Time) returns (result: SendResult, ghost lost: nat)
      requires phase == Holding && redisLock.held
      modifies this`phase, session`notes, redisLock`held, redisLock.redis`store, sender.bot
      ensures Row() == Recorded(old(Row()), if result.Delivered? then Status.Sent else Status.Failed)
      ensures old(Holder()) == Some(redisLock.token) ==> Holder().None?
      ensures |sender.bot.accepted| == |old(sender.bot.accepted)| + Copies(result.Delivered?, lost)
      ensures
        var first, last := old(sender.bot.calls), sender.bot.calls;
        first <= last && lost == Lost(sender.bot.replies, first, last - first)
    {
      ghost var w := World(Row(), Holder(), map[redisLock.token := Holding], 0);
      result, lost := SendText(w);
      w := Step(w, Send(redisLock.token, result.Delivered?, lost));
      RecordOutcome(w, result, now);
      w := Step(w, Mark(redisLock.token));
      ReleaseLock(w);
    }

    /** `send_notification` when nothing else runs in between. */
    method Run(now: Time) returns (r: JobResult, ghost lost: nat)
      requires phase == Fresh && redisLock.ttl > 0
      modifies this, session`notes, redisLock`held, redisLock.redis`store, sender.bot
      ensures r == NotFound <==> old(Row()).None?
      ensures r == AlreadySent <==> old(Row()) == Some(Status.Sent)
      ensures r == Locked <==> !r.NotFound? && !r.AlreadySent? && old(Holder()).Some?
      ensures r.NotFound? || r.AlreadySent? || r.Locked? ==> Row() == old(Row()) && unchanged(sender.bot)
      ensures r.SentNow? || r.RaisedBySend? ==> Holder().None?
      ensures r.SentNow? ==> Row() == Some(Status.Sent)
      ensures r.RaisedBySend? ==> Row() == Some(Status.Failed)
      ensures |sender.bot.accepted| == |old(sender.bot.accepted)| + Copies(r.SentNow?, lost)
      ensures
        var first, last := old(sender.bot.calls), sender.bot.calls;
        first <= last && lost == Lost(sender.bot.replies, first, last - first)
    {
      ghost var w := World(Row(), Holder(), map[redisLock.token := Fresh], 0);
      var stop := CheckStatus(w);
      if stop.Some? {
        return stop.value, 0;
      }
      w := Step(w, Check(redisLock.token));
      var ok := AcquireLock(w);
      if !ok {
        return Locked, 0;
      }
      var result;
      result, lost := Deliver(now);
      r := if result.Delivered? then SentNow else RaisedBySend;
    }
  }
}
