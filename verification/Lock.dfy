/** The lease lock on Redis (app/infrastructure/locks.py) and the poll bracket that relies on it
    (app/workers/tasks.py:44-72). Lock objects are identified by their tokens, which are unique. */
module Lock {
  import opened AuctionTypes

  type Token = int

  /** What `SET key token NX EX ttl` stores: the token and the instant at which the key disappears. */
  datatype Entry = Entry(token: Token, expiry: Time)

  function LiveEntry(entry: Option<Entry>, now: Time): Option<Entry> {
    if entry.Some? && now < entry.value.expiry then entry else None
  }

  const RETRY_INTERVAL: int := 200_000

  /** The last of the tries that start at `now` and follow each other until one is not before `deadline`. */
  function LastTry(now: Time, deadline: Time): (last: Time)
    ensures now <= last
    decreases deadline - now
  {
    if now >= deadline then now else LastTry(now + RETRY_INTERVAL, deadline)
  }

  /** The tries are a retry interval apart, and the last is the first that is not before the deadline. */
  lemma {:induction false} LastTryIsLast(now: Time, deadline: Time) returns (n: nat)
    ensures LastTry(now, deadline) == now + n * 200_000
    ensures deadline <= LastTry(now, deadline) && (n > 0 ==> LastTry(now, deadline) - 200_000 < deadline)
    decreases deadline - now
  {
    n := 0;
    if now < deadline {
      n := LastTryIsLast(now + RETRY_INTERVAL, deadline);
      n := n + 1;
    }
  }

  class Redis {
    var store: map<string, Entry>
    var now: Time

    function Get(key: string): Option<Entry>
      reads this
    {
      LiveEntry(if key in store then Some(store[key]) else None, now)
    }

    method SetNx(key: string, token: Token, ttl: int) returns (ok: bool)
      modifies this`store
      ensures ok <==> old(Get(key)).None?
      ensures store == if ok then old(store)[key := Entry(token, now + ttl)] else old(store)
    {
      ok := Get(key).None?;
      if ok {
        store := store[key := Entry(token, now + ttl)];
      }
    }

    /** The release script: delete the key only if it still holds this token. */
    method DeleteIfToken(key: string, token: Token) returns (deleted: bool)
      modifies this`store
      ensures deleted <==> old(Get(key)).Some? && old(Get(key)).value.token == token
      ensures store == if deleted then old(store) - {key} else old(store)
    {
      var entry := Get(key);
      deleted := entry.Some? && entry.value.token == token;
      if deleted {
        store := store - {key};
      }
    }
  }

  class RedisLock {
    const redis: Redis
    const key: string
    const ttl: int
    const token: Token
    var held: bool

    constructor (redis: Redis, key: string, ttl: int, token: Token)
      ensures this.redis == redis && this.key == key && this.ttl == ttl && this.token == token && !held
    {
      this.redis, this.key, this.ttl, this.token, held := redis, key, ttl, token, false;
    }

    /** This lock's part of the state that `Step` describes. */
    ghost predicate Agrees(s: KeyState)
      reads this, redis
    {
      && s.entry == (if key in redis.store then Some(redis.store[key]) else None)
      && (token in s.held <==> held)
    }

    method TryAcquire(ghost s: KeyState) returns (ok: bool)
      requires Agrees(s)
      modifies this`held, redis`store
      ensures ok == AcquireSucceeds(s, redis.now) && Agrees(Step(s, Event.Acquire(token, ttl, redis.now)))
      ensures forall k :: k != key ==> (k in redis.store <==> k in old(redis.store))
      ensures forall k :: k != key && k in redis.store ==> redis.store[k] == old(redis.store[k])
    {
      ok := redis.SetNx(key, token, ttl);
      held := ok;
    }

    /** `acquire` while no other worker touches the key: a blocking call tries every 200 ms, the last time at or
        after its deadline, and succeeds exactly if the entry it finds has expired by then. */
    method Acquire(blocking: bool, waitTimeout: int) returns (ok: bool)
      modifies this`held, redis
      ensures ok <==>
        || old(redis.Get(key)).None?
        || (blocking && old(redis.store[key].expiry) <= LastTry(old(redis.now), old(redis.now) + waitTimeout))
      ensures held == ok
      ensures redis.store == if ok then old(redis.store)[key := Entry(token, redis.now + ttl)] else old(redis.store)
      ensures !blocking ==> redis.now == old(redis.now)
      ensures ok ==> redis.now <= LastTry(old(redis.now), old(redis.now) + waitTimeout)
    {
      if blocking {
        var deadline := redis.now + waitTimeout;
        ghost var last := LastTry(redis.now, deadline);
        while true
          invariant redis.store == old(redis.store)
          invariant old(redis.now) <= redis.now <= LastTry(redis.now, deadline) == last
          invariant redis.now > old(redis.now) ==> old(redis.Get(key)).Some?
          decreases deadline - redis.now
        {
          held := redis.SetNx(key, token, ttl);
          if held {
            return true;
          }
          if redis.now >= deadline {
            return false;
          }
          redis.now := redis.now + RETRY_INTERVAL;
        }
      }
      held := redis.SetNx(key, token, ttl);
      return held;
    }

    method Release(ghost s: KeyState) returns (released: bool)
      requires Agrees(s)
      modifies this`held, redis`store
      ensures released == ReleaseSucceeds(s, token, redis.now) && Agrees(Step(s, Event.Release(token, redis.now)))
      ensures !released ==> redis.store == old(redis.store)
      ensures forall k :: k != key ==> (k in redis.store <==> k in old(redis.store))
      ensures forall k :: k != key && k in redis.store ==> redis.store[k] == old(redis.store[k])
    {
      if !held {
        return false;
      }
      released := redis.DeleteIfToken(key, token);
      if released {
        held := false;
      }
    }
  }

  // ---------------------------------------------------------------- one key, many workers

  datatype Event =
    | Acquire(token: Token, ttl: int, at: Time)
    | Release(token: Token, at: Time)

  /** One key of the store, and the tokens whose lock objects believe they hold it. */
  datatype KeyState = KeyState(entry: Option<Entry>, held: set<Token>)

  predicate AcquireSucceeds(s: KeyState, at: Time) {
    LiveEntry(s.entry, at).None?
  }

  predicate ReleaseSucceeds(s: KeyState, token: Token, at: Time) {
    token in s.held && LiveEntry(s.entry, at).Some? && s.entry.value.token == token
  }

  function Step(s: KeyState, e: Event): KeyState {
    match e
    case Acquire(token, ttl, at) =>
      if AcquireSucceeds(s, at) then KeyState(Some(Entry(token, at + ttl)), s.held + {token})
      else s.(held := s.held - {token})
    case Release(token, at) =>
      if ReleaseSucceeds(s, token, at) then KeyState(None, s.held - {token}) else s
  }

  /** The state after a run of operations, in the order in which Redis executed them. */
  function After(run: seq<Event>): KeyState {
    if run == [] then KeyState(None, {})
    else Step(After(run[..|run| - 1]), run[|run| - 1])
  }

  ghost predicate Ordered(run: seq<Event>) {
    forall i, j :: 0 <= i <= j < |run| ==> run[i].at <= run[j].at
  }

  predicate Granted(run: seq<Event>, i: int) {
    0 <= i < |run| && run[i].Acquire? && AcquireSucceeds(After(run[..i]), run[i].at)
  }

  predicate Released(run: seq<Event>, k: int) {
    0 <= k < |run| && run[k].Release? && ReleaseSucceeds(After(run[..k]), run[k].token, run[k].at)
  }

  /** The holder of grant `i` gave the lock back before event `k`. */
  ghost predicate GivenBack(run: seq<Event>, i: int, k: int)
    requires 0 <= i < |run|
  {
    exists m :: i < m < k && Released(run, m) && run[m].token == run[i].token
  }

  function LeaseEnd(run: seq<Event>, i: int): Time
    requires Granted(run, i)
  {
    run[i].at + run[i].ttl
  }

  /** Grant `i` is still in force when event `k` comes. */
  ghost predicate InForce(run: seq<Event>, i: int, k: int)
    requires 0 <= k < |run|
  {
    i < k && Granted(run, i) && !GivenBack(run, i, k) && run[k].at < LeaseEnd(run, i)
  }

  /** A grant made after grant `i` and before event `k` found the lease of grant `i` expired. */
  ghost predicate Superseded(run: seq<Event>, i: nat, k: nat)
    requires Granted(run, i)
  {
    exists j :: i < j < k && Granted(run, j) && LeaseEnd(run, i) <= run[j].at
  }

  ghost predicate StillStored(run: seq<Event>, i: nat, k: nat)
    requires Granted(run, i) && k <= |run|
  {
    After(run[..k]).entry == Some(Entry(run[i].token, LeaseEnd(run, i)))
  }

  lemma FateStep(run: seq<Event>, i: nat, k: nat)
    requires Granted(run, i) && i < k < |run| && StillStored(run, i, k)
    ensures StillStored(run, i, k + 1) || Released(run, k) || Superseded(run, i, k + 1)
    ensures Released(run, k) ==> run[k].token == run[i].token
  {
    assert run[..k + 1][..k] == run[..k];
    if run[k].Acquire? && AcquireSucceeds(After(run[..k]), run[k].at) {
      assert Granted(run, k);
    }
  }

  /** What became of a grant: its entry is still stored, or it was given back, or a later grant found it expired. */
  lemma {:induction false} Fate(run: seq<Event>, i: nat, k: nat)
    requires Granted(run, i) && i < k <= |run|
    ensures (StillStored(run, i, k) && !GivenBack(run, i, k)) || GivenBack(run, i, k) || Superseded(run, i, k)
    decreases k
  {
    if i == k - 1 {
      assert run[..k][..i] == run[..i];
    } else {
      Fate(run, i, k - 1);
      if StillStored(run, i, k - 1) && !GivenBack(run, i, k - 1) {
        FateStep(run, i, k - 1);
        hide After;
        assert !Released(run, k - 1) ==> !GivenBack(run, i, k);
      }
    }
  }

  /** A stored entry comes from a grant that nobody gave back. */
  lemma {:induction false} Origin(run: seq<Event>, k: nat) returns (i: nat)
    requires k <= |run| && After(run[..k]).entry.Some?
    ensures i < k && Granted(run, i) && !GivenBack(run, i, k)
    ensures After(run[..k]).entry == Some(Entry(run[i].token, LeaseEnd(run, i)))
  {
    assert run[..k][..k - 1] == run[..k - 1];
    var s := After(run[..k - 1]);
    if run[k - 1].Acquire? && AcquireSucceeds(s, run[k - 1].at) {
      i := k - 1;
    } else {
      i := Origin(run, k - 1);
      assert !Released(run, k - 1);
    }
  }

  /** An attempt is granted exactly when no earlier grant is in force. */
  lemma GrantedIffNoneInForce(run: seq<Event>, j: nat)
    requires Ordered(run) && j < |run| && run[j].Acquire?
    ensures Granted(run, j) <==> !exists i :: 0 <= i < j && InForce(run, i, j)
  {
    if Granted(run, j) {
      forall i | 0 <= i < j && Granted(run, i)
        ensures !InForce(run, i, j)
      {
        Fate(run, i, j);
      }
    } else {
      var i := Origin(run, j);
      assert InForce(run, i, j);
    }
  }

  /** Lease exclusion: of two grants on one key, the earlier one was given back by its own holder, or its
      time was up, before the later one was made. */
  lemma LeasesAreDisjoint(run: seq<Event>, i: nat, j: nat)
    requires Ordered(run) && i < j && Granted(run, i) && Granted(run, j)
    ensures GivenBack(run, i, j) || LeaseEnd(run, i) <= run[j].at
  {
    GrantedIffNoneInForce(run, j);
    assert !InForce(run, i, j);
  }

  /** Event `m` makes the lock object of `token` believe that it does not hold the lock: a refused attempt or an
      effective release of its own. */
  ghost predicate Lets(run: seq<Event>, m: nat, token: Token)
    requires m < |run|
  {
    run[m].token == token && ((run[m].Acquire? && !Granted(run, m)) || Released(run, m))
  }

  /** Grant `i` is the token's own, and its object was not told otherwise before event `k`. */
  ghost predicate HeldSince(run: seq<Event>, i: nat, k: nat, token: Token)
    requires k <= |run|
  {
    i < k && Granted(run, i) && run[i].token == token && forall m :: i < m < k ==> !Lets(run, m, token)
  }

  lemma HeldStep(run: seq<Event>, k: nat, token: Token)
    requires k < |run|
    ensures token in After(run[..k + 1]).held <==>
      || (Granted(run, k) && run[k].token == token)
      || (token in After(run[..k]).held && !Lets(run, k, token))
  {
    assert run[..k + 1][..k] == run[..k];
  }

  /** A lock object believes that it holds the lock exactly if it was granted the lock, and neither a later attempt of
      its own was refused nor did it give the lock back since. */
  lemma {:induction false} HoldsIff(run: seq<Event>, k: nat, token: Token)
    requires k <= |run|
    ensures token in After(run[..k]).held <==> exists i :: 0 <= i < k && HeldSince(run, i, k, token)
  {
    if k > 0 {
      HoldsIff(run, k - 1, token);
      HeldStep(run, k - 1, token);
      hide After, Granted, Released, Lets;
      if Granted(run, k - 1) && run[k - 1].token == token {
        assert HeldSince(run, k - 1, k, token);
      } else if token in After(run[..k]).held {
        var i :| 0 <= i < k - 1 && HeldSince(run, i, k - 1, token);
        assert HeldSince(run, i, k, token);
      }
      forall i: nat | i < k - 1 && HeldSince(run, i, k, token)
        ensures HeldSince(run, i, k - 1, token) && !Lets(run, k - 1, token)
      {
      }
    }
  }

  /** A release has an effect exactly when its own token's grant is in force and its lock object knows that it
      holds the lock; otherwise the key is left as it is. */
  lemma ReleaseActsOnOwnLease(run: seq<Event>, k: nat)
    requires Ordered(run) && k < |run| && run[k].Release?
    ensures Released(run, k) <==>
      && run[k].token in After(run[..k]).held
      && exists i :: 0 <= i < k && run[i].token == run[k].token && InForce(run, i, k)
    ensures !Released(run, k) ==> After(run[..k + 1]) == After(run[..k])
  {
    assert run[..k + 1][..k] == run[..k];
    if Released(run, k) {
      var i := Origin(run, k);
      assert InForce(run, i, k);
    } else if exists i :: 0 <= i < k && run[i].token == run[k].token && InForce(run, i, k) {
      var i :| 0 <= i < k && run[i].token == run[k].token && InForce(run, i, k);
      Fate(run, i, k);
      NotReplaced(run, i, k);
    }
  }

  lemma NotReplaced(run: seq<Event>, i: nat, k: nat)
    requires Ordered(run) && k < |run| && InForce(run, i, k)
    ensures !exists j :: i < j < k && Granted(run, j) && LeaseEnd(run, i) <= run[j].at
  {
  }

  /** A poll that holds grant `i`, ends by `end` within the TTL and releases only afterwards is over before any
      later grant on its key: such polls of one auction are serialized. */
  lemma PollsWithinTtlAreSerialized(run: seq<Event>, i: nat, j: nat, end: Time)
    requires Ordered(run) && i < j && Granted(run, i) && Granted(run, j)
    requires end <= LeaseEnd(run, i)
    requires forall m :: i < m < |run| && run[m].Release? && run[m].token == run[i].token ==> end <= run[m].at
    ensures end <= run[j].at
  {
    LeasesAreDisjoint(run, i, j);
  }

  /** Grant `j` goes to another worker before `end`, without grant `i` having been given back. */
  ghost predicate Overtaker(run: seq<Event>, i: nat, j: nat, end: Time) {
    && i < |run| && Granted(run, j) && run[j].at < end && run[j].token != run[i].token
    && !GivenBack(run, i, j)
  }

  /** `later` continues `run`, in which grant `i` was made last, and grants the key again before `end` although the
      holder of grant `i` has not given it back. */
  ghost predicate Overtakes(run: seq<Event>, i: nat, end: Time, later: seq<Event>) {
    && run <= later && Ordered(later)
    && exists j :: i < j && Overtaker(later, i, j, end)
  }

  lemma OvertakerWaits(run: seq<Event>, i: nat, end: Time, later: seq<Event>)
    requires Granted(run, i) && Overtakes(run, i, end, later)
    ensures LeaseEnd(run, i) < end
  {
    var j :| i < j && Overtaker(later, i, j, end);
    assert later[i] == run[i] && later[..i] == run[..i];
    LeasesAreDisjoint(later, i, j);
  }

  lemma ExpiredLeaseIsTaken(run: seq<Event>, i: nat, end: Time) returns (later: seq<Event>)
    requires Ordered(run) && Granted(run, i) && i == |run| - 1 && 0 <= run[i].ttl && LeaseEnd(run, i) < end
    ensures Overtakes(run, i, end, later)
  {
    later := run + [Acquire(run[i].token + 1, 1, LeaseEnd(run, i))];
    assert later[..|run|] == run;
    assert Granted(later, |run|);
    assert Overtaker(later, i, |run|, end);
  }

  /** Polls of one auction can overlap exactly as far as a poll outlasts its lease: once a grant is made, another
      one before its poll's end, while the holder has not released, is possible if and only if the lease ends before
      the poll does. */
  lemma OvertakenIff(run: seq<Event>, i: nat, end: Time)
    requires Ordered(run) && Granted(run, i) && i == |run| - 1 && 0 <= run[i].ttl
    ensures (exists later :: Overtakes(run, i, end, later)) <==> LeaseEnd(run, i) < end
  {
    if LeaseEnd(run, i) < end {
      var later := ExpiredLeaseIsTaken(run, i, end);
    }
    forall later | Overtakes(run, i, end, later)
      ensures LeaseEnd(run, i) < end
    {
      OvertakerWaits(run, i, end, later);
    }
  }

  /** In the shipped settings polls do overlap: a poll of 120 seconds under the 90-second lease is joined by
      another worker's poll 90 seconds after it began. */
  lemma LongPollIsOvertaken() returns (run: seq<Event>)
    ensures Ordered(run) && |run| == 2
    ensures Granted(run, 0) && run[0] == Acquire(1, 90 * SECOND, 0)
    ensures Granted(run, 1) && run[1].token == 2 && run[1].at < 120 * SECOND
  {
    run := [Acquire(1, 90 * SECOND, 0), Acquire(2, 90 * SECOND, 90 * SECOND)];
    assert run[..1] == [run[0]] && run[..1][..0] == [] && run[..0] == [];
  }

  /** A holder that tries to acquire again is refused, forgets that it holds the lock, and cannot release it:
      the key stays until the lease runs out. */
  lemma ReacquireForfeitsRelease(s: KeyState, token: Token, ttl: int, at: Time, later: Time)
    requires LiveEntry(s.entry, at).Some?
    ensures
      var s' := Step(s, Acquire(token, ttl, at));
      !AcquireSucceeds(s, at) && !ReleaseSucceeds(s', token, later) && Step(s', Release(token, later)).entry == s.entry
  {
  }
}
