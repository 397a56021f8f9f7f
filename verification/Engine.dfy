/** Fan-out of decisions to watchers (app/notifications/engine.py) over idempotent claims. */
module Engine {
  import opened AuctionTypes
  import opened Lists
  import opened Notifications
  import opened Tables

  /** One (watcher, decision) pair of the nested loop. */
  datatype Job = Job(link: int, decision: Decision)

  /** What all jobs of one call share. */
  datatype Batch = Batch(
    snapshotId: Option<int>,
    url: string,
    links: map<int, Link>,
    render: (Decision, string, Option<string>) -> string,
    now: Time)

  predicate HasDedupKey(j: Job, b: Batch) { DedupKeyFor(j.decision, b.snapshotId).Keyed? }

  function KeyOf(j: Job, b: Batch): NoteKey
    requires HasDedupKey(j, b)
  {
    NoteKey(j.link, j.decision.kind, DedupKeyFor(j.decision, b.snapshotId).key)
  }

  function TextOf(j: Job, b: Batch): string {
    b.render(j.decision, b.url, if j.link in b.links then b.links[j.link].name else None)
  }

  /** The notification table while a batch is being inserted, and the ids inserted so far. */
  datatype Fan = Fan(notes: map<int, Note>, next: int, created: seq<int>)

  function ClaimFor(f: Fan, j: Job, b: Batch): Fan
    requires HasDedupKey(j, b)
  {
    var key := KeyOf(j, b);
    if HasKey(f.notes, key) then f.(next := f.next + 1)
    else Fan(f.notes[f.next := Note(key, Some(TextOf(j, b)), Pending, b.now, None)], f.next + 1, f.created + [f.next])
  }

  ghost predicate Keyable(jobs: seq<Job>, b: Batch) {
    forall k :: 0 <= k < |jobs| ==> HasDedupKey(jobs[k], b)
  }

  ghost function FanOut(f: Fan, jobs: seq<Job>, b: Batch): Fan
    requires Keyable(jobs, b)
    decreases |jobs|
  {
    if jobs == [] then f
    else ClaimFor(FanOut(f, jobs[..|jobs| - 1], b), jobs[|jobs| - 1], b)
  }

  function JobsFor(link: int, ds: seq<Decision>): (jobs: seq<Job>)
    ensures |jobs| == |ds| && forall k :: 0 <= k < |ds| ==> jobs[k] == Job(link, ds[k])
  {
    seq(|ds|, k requires 0 <= k < |ds| => Job(link, ds[k]))
  }

  /** Watchers in the outer loop, decisions in the inner one. */
  function Jobs(watchers: seq<int>, ds: seq<Decision>): seq<Job> {
    if watchers == [] then []
    else Jobs(watchers[..|watchers| - 1], ds) + JobsFor(watchers[|watchers| - 1], ds)
  }

  lemma {:induction false} JobsAreProduct(watchers: seq<int>, ds: seq<Decision>, j: Job)
    ensures j in Jobs(watchers, ds) <==> j.link in watchers && j.decision in ds
  {
    if watchers != [] {
      var n := |watchers| - 1;
      JobsAreProduct(watchers[..n], ds, j);
      assert watchers == watchers[..n] + [watchers[n]];
      var last := JobsFor(watchers[n], ds);
      if j.decision in ds && j.link == watchers[n] {
        var k :| 0 <= k < |ds| && ds[k] == j.decision;
        assert last[k] == j;
      }
    }
  }

  lemma ProductKeyable(watchers: seq<int>, ds: seq<Decision>, b: Batch)
    requires AllKeyed(ds, b.snapshotId)
    ensures Keyable(Jobs(watchers, ds), b)
  {
    var jobs := Jobs(watchers, ds);
    forall k | 0 <= k < |jobs|
      ensures HasDedupKey(jobs[k], b)
    {
      JobsAreProduct(watchers, ds, jobs[k]);
    }
  }

  // ---------------------------------------------------------------- the engine

  class NotificationEngine {
    const session: Session

    constructor (session: Session)
      ensures this.session == session
    {
      this.session := session;
    }

    /** One pass of the inner loop: claim the key, and give a new row its text. */
    method CreateJob(job: Job, b: Batch, created: seq<int>) returns (created': seq<int>)
      requires HasDedupKey(job, b)
      modifies session`notes, session`nextNote
      ensures Fan(session.notes, session.nextNote, created')
           == ClaimFor(Fan(old(session.notes), old(session.nextNote), created), job, b)
    {
      var key := DedupKeyFor(job.decision, b.snapshotId).key;
      var id := session.Claim(NoteKey(job.link, job.decision.kind, key), b.now);
      if id.None? {
        return created;
      }
      var row := session.notes[id.value];
      session.notes := session.notes[id.value := row.(text := Some(TextOf(job, b)))];
      return created + [id.value];
    }

    /** `create_jobs` with the renderer and the clock as parameters. */
    method CreateJobs(decisions: seq<Decision>, watchers: seq<int>, snapshotId: Option<int>, url: string,
                      render: (Decision, string, Option<string>) -> string, now: Time)
      returns (created: seq<int>)
      requires AllKeyed(decisions, snapshotId)
      modifies session`notes, session`nextNote
      ensures
        var b := Batch(snapshotId, url, session.links, render, now);
        && Keyable(Jobs(watchers, decisions), b)
        && Fan(session.notes, session.nextNote, created)
           == FanOut(Fan(old(session.notes), old(session.nextNote), []), Jobs(watchers, decisions), b)
    {
      var b := Batch(snapshotId, url, session.links, render, now);
      ghost var start := Fan(session.notes, session.nextNote, []);
      ghost var done: seq<Job> := [];
      created := [];
      NothingToFan(start, decisions, b);
      hide FanOut, Jobs, ClaimFor, HasDedupKey;
      for i := 0 to |watchers|
        invariant done == Jobs(watchers[..i], decisions) && Keyable(done, b)
        invariant Fan(session.notes, session.nextNote, created) == FanOut(start, done, b)
      {
        ghost var before := done;
        ghost var row := JobsFor(watchers[i], decisions);
        for k := 0 to |decisions|
          invariant done == before + row[..k] && Keyable(done, b)
          invariant Fan(session.notes, session.nextNote, created) == FanOut(start, done, b)
        {
          var job := Job(watchers[i], decisions[k]);
          JobIsKeyed(job, decisions, b);
          created := CreateJob(job, b, created);
          FanOutPush(start, done, job, b);
          assert row[..k + 1] == row[..k] + [job];
          done := done + [job];
        }
        assert row[..|decisions|] == row;
        JobsOfOneMore(watchers, i, decisions);
      }
      assert watchers[..|watchers|] == watchers;
    }
  }

  lemma NothingToFan(f: Fan, ds: seq<Decision>, b: Batch)
    ensures Jobs([], ds) == [] && FanOut(f, [], b) == f
  {
  }

  lemma JobIsKeyed(j: Job, ds: seq<Decision>, b: Batch)
    requires AllKeyed(ds, b.snapshotId) && j.decision in ds
    ensures HasDedupKey(j, b)
  {
  }

  lemma JobsOfOneMore(watchers: seq<int>, i: nat, ds: seq<Decision>)
    requires i < |watchers|
    ensures Jobs(watchers[..i + 1], ds) == Jobs(watchers[..i], ds) + JobsFor(watchers[i], ds)
  {
    assert watchers[..i + 1][..i] == watchers[..i];
  }

  lemma FanOutPush(f: Fan, jobs: seq<Job>, j: Job, b: Batch)
    requires Keyable(jobs, b) && HasDedupKey(j, b)
    ensures Keyable(jobs + [j], b) && FanOut(f, jobs + [j], b) == ClaimFor(FanOut(f, jobs, b), j, b)
  {
    assert (jobs + [j])[..|jobs|] == jobs;
  }

  // ---------------------------------------------------------------- conservation

  ghost predicate UniqueKeys(notes: map<int, Note>) {
    forall i, j :: i in notes && j in notes && i != j ==> notes[i].key != notes[j].key
  }

  ghost predicate IdsBelow(notes: map<int, Note>, next: int) {
    forall id :: id in notes ==> id < next
  }

  /** What a batch adds to a table, relative to the rows it found. */
  ghost predicate Conserved(found: Fan, f: Fan) {
    && found.next <= f.next && IdsBelow(f.notes, f.next)
    && (forall id :: id in found.notes ==> id in f.notes && f.notes[id] == found.notes[id])
    && (forall id :: id in f.notes ==> id in found.notes || id in f.created)
    && (forall id :: id in f.created ==> id in f.notes && found.next <= id && !HasKey(found.notes, f.notes[id].key))
    && (forall id :: id in f.created ==> f.notes[id].text.Some? && f.notes[id].status.Pending?)
    && Distinct(f.created)
    && (UniqueKeys(found.notes) ==> UniqueKeys(f.notes))
  }

  lemma {:induction false} FanOutConserves(found: Fan, jobs: seq<Job>, b: Batch)
    requires Keyable(jobs, b) && IdsBelow(found.notes, found.next) && found.created == []
    ensures Conserved(found, FanOut(found, jobs, b))
    decreases |jobs|
  {
    if jobs != [] {
      var n := |jobs| - 1;
      FanOutConserves(found, jobs[..n], b);
      ClaimConserves(found, FanOut(found, jobs[..n], b), jobs[n], b);
    }
  }

  lemma ClaimConserves(found: Fan, f: Fan, j: Job, b: Batch)
    requires HasDedupKey(j, b) && Conserved(found, f)
    ensures Conserved(found, ClaimFor(f, j, b))
  {
    var key := KeyOf(j, b);
    if !HasKey(f.notes, key) {
      InsertConserves(found, f, Note(key, Some(TextOf(j, b)), Pending, b.now, None));
    }
  }

  lemma InsertConserves(found: Fan, f: Fan, n: Note)
    requires Conserved(found, f) && !HasKey(f.notes, n.key) && n.text.Some? && n.status.Pending?
    ensures Conserved(found, Fan(f.notes[f.next := n], f.next + 1, f.created + [f.next]))
  {
    assert forall id :: id in found.notes ==> id in f.notes && f.notes[id].key != n.key;
    assert forall id :: id in f.created ==> id < f.next;
    DistinctPush(f.created, f.next);
    if UniqueKeys(found.notes) {
      KeysStayUnique(f.notes, f.next, n);
    }
    hide Distinct, UniqueKeys;
  }

  lemma DistinctPush(s: seq<int>, x: int)
    requires Distinct(s) && x !in s
    ensures Distinct(s + [x])
  {
    assert forall k :: 0 <= k < |s| ==> s[k] in s;
  }

  lemma KeysStayUnique(notes: map<int, Note>, id: int, n: Note)
    requires UniqueKeys(notes) && !HasKey(notes, n.key)
    ensures UniqueKeys(notes[id := n])
  {
  }

  /** Every created row is what one of the jobs calls for. */
  ghost predicate RowsOf(f: Fan, jobs: seq<Job>, b: Batch)
    requires Keyable(jobs, b)
  {
    forall id :: id in f.created ==> id in f.notes && exists k :: 0 <= k < |jobs| && IsRowOf(f.notes[id], jobs[k], b)
  }

  /** The row's text is rendered from the job's decision, the auction's URL and the watcher's own name for it. */
  predicate IsRowOf(n: Note, j: Job, b: Batch) {
    && HasDedupKey(j, b) && n.key == KeyOf(j, b)
    && n.text == Some(b.render(j.decision, b.url, if j.link in b.links then b.links[j.link].name else None))
    && n.status == Pending && n.createdAt == b.now && n.sentAt == None
  }

  /** Every claim takes an id from the sequence, whether or not it inserts a row. */
  lemma {:induction false} FanOutTakesIds(found: Fan, jobs: seq<Job>, b: Batch)
    requires Keyable(jobs, b)
    ensures FanOut(found, jobs, b).next == found.next + |jobs|
    decreases |jobs|
  {
    if jobs != [] {
      FanOutTakesIds(found, jobs[..|jobs| - 1], b);
    }
  }

  lemma {:induction false} FanOutRows(found: Fan, jobs: seq<Job>, b: Batch)
    requires Keyable(jobs, b) && IdsBelow(found.notes, found.next) && found.created == []
    ensures RowsOf(FanOut(found, jobs, b), jobs, b)
    decreases |jobs|
  {
    if jobs != [] {
      var n := |jobs| - 1;
      FanOutRows(found, jobs[..n], b);
      FanOutConserves(found, jobs[..n], b);
      ClaimRow(FanOut(found, jobs[..n], b), jobs, b);
    }
  }

  lemma ClaimRow(f: Fan, jobs: seq<Job>, b: Batch)
    requires jobs != [] && Keyable(jobs, b) && RowsOf(f, jobs[..|jobs| - 1], b) && IdsBelow(f.notes, f.next)
    ensures RowsOf(ClaimFor(f, jobs[|jobs| - 1], b), jobs, b)
  {
    var n := |jobs| - 1;
    var f' := ClaimFor(f, jobs[n], b);
    forall id | id in f'.created
      ensures id in f'.notes && exists k :: 0 <= k < |jobs| && IsRowOf(f'.notes[id], jobs[k], b)
    {
      if id in f.created {
        var k :| 0 <= k < n && IsRowOf(f.notes[id], jobs[..n][k], b);
        assert jobs[..n][k] == jobs[k];
      } else {
        assert IsRowOf(f'.notes[id], jobs[n], b);
      }
    }
  }

  /** The keys in the table afterwards are those found and those of the jobs, no more and no fewer. */
  lemma {:induction false} FanOutKeys(found: Fan, jobs: seq<Job>, b: Batch, key: NoteKey)
    requires Keyable(jobs, b) && IdsBelow(found.notes, found.next) && found.created == []
    ensures HasKey(FanOut(found, jobs, b).notes, key) <==>
      HasKey(found.notes, key) || exists k :: 0 <= k < |jobs| && KeyOf(jobs[k], b) == key
    decreases |jobs|
  {
    if jobs != [] {
      var n := |jobs| - 1;
      FanOutKeys(found, jobs[..n], b, key);
      FanOutConserves(found, jobs[..n], b);
      var f := FanOut(found, jobs[..n], b);
      ClaimKeys(f, jobs[n], b, key);
      assert forall k :: 0 <= k < n ==> jobs[..n][k] == jobs[k];
    }
  }

  lemma ClaimKeys(f: Fan, j: Job, b: Batch, key: NoteKey)
    requires HasDedupKey(j, b) && IdsBelow(f.notes, f.next)
    ensures HasKey(ClaimFor(f, j, b).notes, key) <==> HasKey(f.notes, key) || KeyOf(j, b) == key
  {
    var f' := ClaimFor(f, j, b);
    if HasKey(f.notes, key) {
      var id :| id in f.notes && f.notes[id].key == key;
      assert id in f'.notes && f'.notes[id].key == key;
    }
    if !HasKey(f.notes, KeyOf(j, b)) {
      assert f.next in f'.notes && f'.notes[f.next].key == KeyOf(j, b);
    }
  }

  /** Fan-out of a poll's decisions: a row is created for exactly the (watcher, decision) keys that were not
      claimed before; rows already there are untouched, every new row is pending with a text, and keys stay unique. */
  lemma FanOutIsExact(found: Fan, watchers: seq<int>, ds: seq<Decision>, b: Batch, key: NoteKey)
    requires AllKeyed(ds, b.snapshotId) && IdsBelow(found.notes, found.next) && found.created == []
    ensures Keyable(Jobs(watchers, ds), b)
    ensures Conserved(found, FanOut(found, Jobs(watchers, ds), b))
    ensures
      var f := FanOut(found, Jobs(watchers, ds), b);
      (exists id :: id in f.created && f.notes[id].key == key) <==>
        && !HasKey(found.notes, key)
        && exists d :: d in ds && key.link in watchers && key == KeyOf(Job(key.link, d), b)
  {
    var jobs := Jobs(watchers, ds);
    ProductKeyable(watchers, ds, b);
    FanOutConserves(found, jobs, b);
    FanOutKeys(found, jobs, b, key);
    var f := FanOut(found, jobs, b);
    if exists k :: 0 <= k < |jobs| && KeyOf(jobs[k], b) == key {
      var k :| 0 <= k < |jobs| && KeyOf(jobs[k], b) == key;
      JobsAreProduct(watchers, ds, jobs[k]);
      assert jobs[k] == Job(key.link, jobs[k].decision);
    }
    if exists d :: d in ds && key.link in watchers && key == KeyOf(Job(key.link, d), b) {
      var d :| d in ds && key.link in watchers && key == KeyOf(Job(key.link, d), b);
      JobsAreProduct(watchers, ds, Job(key.link, d));
      var k :| 0 <= k < |jobs| && jobs[k] == Job(key.link, d);
    }
    if !HasKey(found.notes, key) && HasKey(f.notes, key) {
      var id :| id in f.notes && f.notes[id].key == key;
      assert id in f.created;
    }
  }

  /** Repeating a fan-out, as after a retry, creates nothing and changes no row. */
  lemma RepeatedFanOutIsEmpty(found: Fan, jobs: seq<Job>, b: Batch)
    requires Keyable(jobs, b) && IdsBelow(found.notes, found.next) && found.created == []
    ensures
      var f := FanOut(found, jobs, b);
      var again := FanOut(f.(created := []), jobs, b);
      again.created == [] && again.notes == f.notes
  {
    var f := FanOut(found, jobs, b);
    forall k | 0 <= k < |jobs|
      ensures HasKey(f.notes, KeyOf(jobs[k], b))
    {
      FanOutKeys(found, jobs, b, KeyOf(jobs[k], b));
    }
    AllClaimed(f.(created := []), jobs, b);
  }

  lemma {:induction false} AllClaimed(f: Fan, jobs: seq<Job>, b: Batch)
    requires Keyable(jobs, b) && forall k :: 0 <= k < |jobs| ==> HasKey(f.notes, KeyOf(jobs[k], b))
    ensures FanOut(f, jobs, b).notes == f.notes && FanOut(f, jobs, b).created == f.created
    decreases |jobs|
  {
    if jobs != [] {
      AllClaimed(f, jobs[..|jobs| - 1], b);
    }
  }
}
