/** The system together with its send jobs: outcomes reach the notification table only through the jobs' steps
    (app/workers/tasks.py:75-127, app/repositories/notifications.py:37-48). */
module JobRuns {
  import opened AuctionTypes
  import opened Tables
  import opened Runs
  import opened Delivery
  import J = SendJobs
  import D = Duplicates

  /** A transaction of the services, or one step of a send job for notification `note`. */
  datatype Move = Commit(e: Event) | Work(note: int, action: J.Action, now: Time)

  /** What a step of a job commits: the outcome, if it records one. */
  function Outcome(w: J.World, note: int, action: J.Action, now: Time): seq<Event> {
    if !action.Mark? then []
    else if J.In(w, action.job, J.Accepting) then [Settle(note, Status.Sent, now)]
    else if J.In(w, action.job, J.Refused) then [Settle(note, Status.Failed, now)]
    else []
  }

  /** What the moves commit, in order. */
  ghost function EventsOf(cfg: Settings, moves: seq<Move>): seq<Event>
    decreases |moves|, 0
  {
    if moves == [] then []
    else
      var init := moves[..|moves| - 1];
      EventsOf(cfg, init) +
      match moves[|moves| - 1]
      case Commit(e) => [e]
      case Work(note, action, now) => Outcome(WorldOf(cfg, init, note), note, action, now)
  }

  ghost function DbOf(cfg: Settings, moves: seq<Move>): Db
    decreases |moves|, 1
  {
    After(cfg, EventsOf(cfg, moves))
  }

  function RowStatus(db: Db, id: int): Option<Status> {
    if id in db.notes then Some(db.notes[id].status) else None
  }

  /** The jobs of one notification and what they see of its row. */
  ghost function WorldOf(cfg: Settings, moves: seq<Move>, id: int): J.World
    decreases |moves|, 2
  {
    if moves == [] then J.World(None, None, map[], 0)
    else
      var w := WorldOf(cfg, moves[..|moves| - 1], id);
      match moves[|moves| - 1]
      case Commit(_) => w.(row := RowStatus(DbOf(cfg, moves), id))
      case Work(note, action, _) => if note == id then J.Step(w, action) else w
  }

  /** Only jobs settle rows, only transactions delete them, and the commits are a run of the system. */
  ghost predicate Proper(cfg: Settings, moves: seq<Move>) {
    && Real(cfg, EventsOf(cfg, moves))
    && (moves != [] ==>
          && Proper(cfg, moves[..|moves| - 1])
          && match moves[|moves| - 1]
             case Commit(e) => !e.Settle?
             case Work(_, action, _) => !action.Remove?)
  }

  // ---------------------------------------------------------------- one move

  lemma CommitStep(cfg: Settings, moves: seq<Move>, e: Event)
    requires Proper(cfg, moves + [Commit(e)])
    ensures Proper(cfg, moves) && DbOf(cfg, moves + [Commit(e)]) == Step(cfg, DbOf(cfg, moves), e)
    ensures NotesInv(DbOf(cfg, moves)) && Evolves(DbOf(cfg, moves), e, DbOf(cfg, moves + [Commit(e)]))
  {
    hide Step;
    assert (moves + [Commit(e)])[..|moves|] == moves;
    var events, events' := EventsOf(cfg, moves), EventsOf(cfg, moves + [Commit(e)]);
    assert events' == events + [e] && events'[..|events|] == events && events'[..|events'|] == events';
    NotesEvolve(cfg, events', |events|);
  }

  lemma SettledStatus(cfg: Settings, db: Db, note: int, status: Status, now: Time, id: int)
    ensures RowStatus(Step(cfg, db, Settle(note, status, now)), id)
         == if id == note then J.Recorded(RowStatus(db, id), status) else RowStatus(db, id)
  {
  }

  /** A job's step changes its own row's status as its world says, and nothing else. */
  lemma JobStep(cfg: Settings, moves: seq<Move>, note: int, action: J.Action, now: Time, id: int)
    requires RowStatus(DbOf(cfg, moves), note) == WorldOf(cfg, moves, note).row && !action.Remove?
    ensures RowStatus(DbOf(cfg, moves + [Work(note, action, now)]), id)
         == if id == note then J.Step(WorldOf(cfg, moves, note), action).row else RowStatus(DbOf(cfg, moves), id)
  {
    OutcomeStep(cfg, moves, note, action, now);
    SettledStatus(cfg, DbOf(cfg, moves), note, Status.Sent, now, id);
    SettledStatus(cfg, DbOf(cfg, moves), note, Status.Failed, now, id);
  }

  /** A job's step is at most one settlement of its own row. */
  lemma OutcomeStep(cfg: Settings, moves: seq<Move>, note: int, action: J.Action, now: Time)
    ensures
      var db, db' := DbOf(cfg, moves), DbOf(cfg, moves + [Work(note, action, now)]);
      var w := WorldOf(cfg, moves, note);
      db' == if action.Mark? && J.In(w, action.job, J.Accepting) then Step(cfg, db, Settle(note, Status.Sent, now))
             else if action.Mark? && J.In(w, action.job, J.Refused) then Step(cfg, db, Settle(note, Status.Failed, now))
             else db
  {
    hide Step;
    assert (moves + [Work(note, action, now)])[..|moves|] == moves;
    var events := EventsOf(cfg, moves);
    var outcome := Outcome(WorldOf(cfg, moves, note), note, action, now);
    assert outcome == [] ==> events + outcome == events;
    assert outcome != [] ==> (events + outcome)[..|events|] == events;
  }

  /** Each job sees the status that the table holds. */
  lemma {:induction false} WorldSeesRow(cfg: Settings, moves: seq<Move>, id: int)
    requires Proper(cfg, moves)
    ensures WorldOf(cfg, moves, id).row == RowStatus(DbOf(cfg, moves), id)
  {
    if moves != [] {
      var init, last := moves[..|moves| - 1], moves[|moves| - 1];
      assert moves == init + [last];
      match last
      case Commit(e) =>
      case Work(note, action, now) =>
        WorldSeesRow(cfg, init, id);
        WorldSeesRow(cfg, init, note);
        JobStep(cfg, init, note, action, now, id);
    }
  }

  // ---------------------------------------------------------------- no false receipts

  lemma {:induction false} ReceiptsAreTrue(cfg: Settings, moves: seq<Move>, id: int)
    requires Proper(cfg, moves)
    ensures D.AcceptedIfSent(WorldOf(cfg, moves, id))
  {
    if moves != [] {
      var init, last := moves[..|moves| - 1], moves[|moves| - 1];
      assert moves == init + [last];
      ReceiptsAreTrue(cfg, init, id);
      match last
      case Commit(e) =>
        CommitStep(cfg, init, e);
        WorldSeesRow(cfg, init, id);
      case Work(note, action, _) =>
        D.StepKeepsReceipts(WorldOf(cfg, init, id), action);
    }
  }

  /** In every state of the system with its jobs, a notification marked sent got into its chat at least once. */
  lemma SentRowsWereAccepted(cfg: Settings, moves: seq<Move>, id: int)
    requires Proper(cfg, moves) && id in DbOf(cfg, moves).notes && DbOf(cfg, moves).notes[id].status.Sent?
    ensures WorldOf(cfg, moves, id).accepted >= 1
  {
    WorldSeesRow(cfg, moves, id);
    ReceiptsAreTrue(cfg, moves, id);
  }

  // ---------------------------------------------------------------- at most once

  /** Before the row exists no job gets anywhere. */
  predicate Unborn(w: J.World) {
    && w.row.None? && w.holder.None? && w.accepted == 0
    && forall j :: j in w.jobs ==> w.jobs[j].Fresh? || w.jobs[j].Over?
  }

  /** Every step of a job for `id` meets the four conditions. */
  ghost predicate CarefulFor(cfg: Settings, moves: seq<Move>, id: int) {
    moves != [] ==>
      var init, last := moves[..|moves| - 1], moves[|moves| - 1];
      && CarefulFor(cfg, init, id)
      && (last.Work? && last.note == id ==> D.Careful(WorldOf(cfg, init, id), last.action))
  }

  ghost predicate BornOnce(cfg: Settings, moves: seq<Move>, id: int) {
    && D.OnceInv(WorldOf(cfg, moves, id))
    && (DbOf(cfg, moves).nextNote <= id ==> Unborn(WorldOf(cfg, moves, id)))
  }

  lemma CommitKeepsOnce(w: J.World, db: Db, e: Event, db': Db, id: int)
    requires NotesInv(db') && Evolves(db, e, db') && !e.Settle?
    requires w.row == RowStatus(db, id) && D.OnceInv(w) && (db.nextNote <= id ==> Unborn(w))
    ensures
      var w' := w.(row := RowStatus(db', id));
      D.OnceInv(w') && (db'.nextNote <= id ==> Unborn(w'))
  {
  }

  lemma JobKeepsNext(cfg: Settings, moves: seq<Move>, note: int, action: J.Action, now: Time)
    ensures DbOf(cfg, moves + [Work(note, action, now)]).nextNote == DbOf(cfg, moves).nextNote
  {
    OutcomeStep(cfg, moves, note, action, now);
  }

  lemma NotesHold(cfg: Settings, moves: seq<Move>)
    requires Proper(cfg, moves)
    ensures NotesInv(DbOf(cfg, moves))
  {
    var events := EventsOf(cfg, moves);
    assert events[..|events|] == events;
    NotesAlways(cfg, events, |events|);
  }

  lemma CommitKeepsBorn(cfg: Settings, moves: seq<Move>, e: Event, id: int)
    requires Proper(cfg, moves + [Commit(e)]) && BornOnce(cfg, moves, id)
    ensures BornOnce(cfg, moves + [Commit(e)], id)
  {
    assert (moves + [Commit(e)])[..|moves|] == moves;
    CommitStep(cfg, moves, e);
    WorldSeesRow(cfg, moves, id);
    NotesHold(cfg, moves + [Commit(e)]);
    hide Step, After, D.OnceInv, EventsOf, Proper, Evolves, NotesInv;
    CommitKeepsOnce(WorldOf(cfg, moves, id), DbOf(cfg, moves), e, DbOf(cfg, moves + [Commit(e)]), id);
  }

  lemma WorkKeepsBorn(cfg: Settings, moves: seq<Move>, note: int, action: J.Action, now: Time, id: int)
    requires BornOnce(cfg, moves, id)
    requires note == id ==> D.Careful(WorldOf(cfg, moves, id), action)
    ensures BornOnce(cfg, moves + [Work(note, action, now)], id)
  {
    assert (moves + [Work(note, action, now)])[..|moves|] == moves;
    JobKeepsNext(cfg, moves, note, action, now);
    hide Step, After, EventsOf;
    if note == id {
      D.StepKeepsOnce(WorldOf(cfg, moves, id), action);
    }
  }

  lemma {:induction false} CarefulJobsKeepOnce(cfg: Settings, moves: seq<Move>, id: int)
    requires Proper(cfg, moves) && CarefulFor(cfg, moves, id)
    ensures BornOnce(cfg, moves, id)
  {
    if moves != [] {
      var init, last := moves[..|moves| - 1], moves[|moves| - 1];
      assert moves == init + [last];
      CarefulJobsKeepOnce(cfg, init, id);
      hide After, EventsOf, BornOnce, Real;
      match last
      case Commit(e) => CommitKeepsBorn(cfg, init, e, id);
      case Work(note, action, now) => WorkKeepsBorn(cfg, init, note, action, now, id);
    }
  }

  /** In the system with its jobs, too, a notification whose jobs meet the four conditions gets into its chat at most
      once, whatever the rest of the system does. */
  lemma CarefulJobsSendOnce(cfg: Settings, moves: seq<Move>, id: int)
    requires Proper(cfg, moves) && CarefulFor(cfg, moves, id)
    ensures WorldOf(cfg, moves, id).accepted <= 1
  {
    CarefulJobsKeepOnce(cfg, moves, id);
  }
}
