/** How often a message gets into the chat, over every interleaving of send jobs (app/workers/tasks.py:75-127). */
module Duplicates {
  import opened AuctionTypes
  import opened Tables
  import L = Lock
  import opened SendJobs

  // ---------------------------------------------------------------- no false receipts

  function After(v: World, run: seq<Action>): World {
    if run == [] then v else Step(After(v, run[..|run| - 1]), run[|run| - 1])
  }

  predicate AcceptedIfSent(w: World) {
    && (w.row == Some(Status.Sent) ==> w.accepted >= 1)
    && (forall j :: j in w.jobs && w.jobs[j].Accepting? ==> w.accepted >= 1)
  }

  lemma StepKeepsReceipts(w: World, e: Action)
    requires AcceptedIfSent(w)
    ensures AcceptedIfSent(Step(w, e))
  {
  }

  /** Whatever the interleaving, with crashes, expired locks, lost replies and deletions, a row marked sent was
      accepted at least once. */
  lemma {:induction false} SentMeansAccepted(run: seq<Action>)
    ensures AcceptedIfSent(After(INITIAL, run))
  {
    if run != [] {
      SentMeansAccepted(run[..|run| - 1]);
      StepKeepsReceipts(After(INITIAL, run[..|run| - 1]), run[|run| - 1]);
    }
  }

  /** Once the row is deleted or marked as sent, a job that begins finds nothing to send. */
  lemma DoneIsNotSentAnew(w: World, j: L.Token)
    requires j !in w.jobs
    ensures w.row.None? || w.row.value.Sent? ==> Step(Step(w, Begin(j)), Check(j)) == w.(jobs := w.jobs[j := Over])
    ensures Step(Step(Step(w, Remove), Begin(j)), Check(j)) == World(None, w.holder, w.jobs[j := Over], w.accepted)
  {
  }

  // ---------------------------------------------------------------- four conditions

  /** No lease runs out while some job is still sending. */
  predicate LeaseLasts(w: World, e: Action) {
    e.Expire? ==> forall j :: j in w.jobs ==> !w.jobs[j].InSend()
  }

  /** The job gets the lock after the row it read is gone or another job has sent it. */
  predicate TakesStale(w: World, e: Action) {
    e.Take? && In(w, e.job, Checked) && w.holder.None? && (w.row.None? || w.row.value.Sent?)
  }

  /** A job that gets the lock would still find the row unsent if it looked again. */
  predicate ReadIsFresh(w: World, e: Action) { !TakesStale(w, e) }

  /** No job is lost between its accepted message and the record of it. */
  predicate OutcomeIsRecorded(w: World, e: Action) {
    (e.Crash? || e.Abort?) ==> !In(w, e.job, Accepting)
  }

  /** No call raises although its message got through. */
  predicate RepliesArrive(w: World, e: Action) {
    e.Send? && In(w, e.job, Holding) ==> e.lost == 0
  }

  predicate Careful(w: World, e: Action) {
    LeaseLasts(w, e) && ReadIsFresh(w, e) && OutcomeIsRecorded(w, e) && RepliesArrive(w, e)
  }

  /** The world after a run, and which of the four conditions held at every step of it. */
  datatype Trace = Trace(w: World, lasts: bool, readsFresh: bool, recorded: bool, arrive: bool) {
    predicate Kept() { lasts && readsFresh && recorded && arrive }
  }

  function Start(v: World): Trace { Trace(v, true, true, true, true) }

  function Next(t: Trace, e: Action): Trace {
    Trace(Step(t.w, e), t.lasts && LeaseLasts(t.w, e), t.readsFresh && ReadIsFresh(t.w, e),
          t.recorded && OutcomeIsRecorded(t.w, e), t.arrive && RepliesArrive(t.w, e))
  }

  function TraceFrom(v: World, run: seq<Action>): Trace {
    if run == [] then Start(v) else Next(TraceFrom(v, run[..|run| - 1]), run[|run| - 1])
  }

  function TraceOf(run: seq<Action>): Trace { TraceFrom(INITIAL, run) }

  lemma {:induction false} TraceEnds(v: World, run: seq<Action>)
    ensures TraceFrom(v, run).w == After(v, run)
  {
    if run != [] {
      TraceEnds(v, run[..|run| - 1]);
    }
  }

  // ---------------------------------------------------------------- at most once

  /** Jobs exclude each other while sending, and none of them sends what is recorded as sent. */
  ghost predicate Exclusive(w: World) {
    forall j :: j in w.jobs && w.jobs[j].InSend() ==> w.holder == Some(j) && w.row != Some(Status.Sent)
  }

  /** Jobs exclude each other while sending, nobody sends a message that is already in the chat or already recorded
      as sent, and a message in the chat is recorded or about to be. */
  ghost predicate OnceInv(w: World) {
    && AcceptedIfSent(w)
    && Exclusive(w)
    && (forall j :: j in w.jobs && (w.jobs[j].Holding? || w.jobs[j].Refused?) ==> w.accepted == 0)
    && w.accepted <= 1
    && (w.accepted == 1 ==>
          w.row.None? || w.row.value.Sent? || exists j :: j in w.jobs && w.jobs[j].Accepting?)
  }

  lemma StepKeepsExclusive(w: World, e: Action)
    requires Exclusive(w) && LeaseLasts(w, e) && ReadIsFresh(w, e)
    ensures Exclusive(Step(w, e))
  {
  }

  lemma StepKeepsOnce(w: World, e: Action)
    requires OnceInv(w) && Careful(w, e)
    ensures OnceInv(Step(w, e))
  {
    StepKeepsReceipts(w, e);
    StepKeepsExclusive(w, e);
    if exists j :: j in w.jobs && w.jobs[j].Accepting? {
      var j :| j in w.jobs && w.jobs[j].Accepting?;
      assert j in Step(w, e).jobs;
    }
  }

  lemma {:induction false} CarefulRunsKeepOnce(v: World, run: seq<Action>)
    requires OnceInv(v) && TraceFrom(v, run).Kept()
    ensures OnceInv(TraceFrom(v, run).w)
  {
    if run != [] {
      var n := |run| - 1;
      CarefulRunsKeepOnce(v, run[..n]);
      StepKeepsOnce(TraceFrom(v, run[..n]).w, run[n]);
    }
  }

  /** At most once, under four conditions: leases last, reads are fresh, outcomes are recorded, replies arrive. */
  lemma AcceptedAtMostOnce(run: seq<Action>)
    requires TraceOf(run).Kept()
    ensures TraceOf(run).w.accepted <= 1
  {
    CarefulRunsKeepOnce(INITIAL, run);
  }

  // ---------------------------------------------------------------- exactly when a message can be doubled

  /** Some continuation that meets the four conditions throughout puts the message into the chat twice. */
  ghost predicate CanDouble(w: World) {
    exists more :: TraceFrom(w, more).Kept() && TraceFrom(w, more).w.accepted >= 2
  }

  /** While the row exists, breaking any condition; once it is deleted, sending a message that is in the chat
      already, or putting it there twice at once. */
  predicate Harmful(w: World, e: Action) {
    if w.row.Some? then !Careful(w, e)
    else
      || (TakesStale(w, e) && w.accepted >= 1)
      || (e.Send? && In(w, e.job, Holding) && Copies(e.ok, e.lost) >= 2)
  }

  /** The row is gone, and no more than one message can be under way or in the chat. */
  ghost predicate GoneInv(w: World) {
    && w.row.None? && w.accepted <= 1
    && (forall j :: j in w.jobs && w.jobs[j].Holding? ==> w.accepted == 0)
    && (forall j, k :: j in w.jobs && k in w.jobs && w.jobs[j].Holding? && w.jobs[k].Holding? ==> j == k)
  }

  lemma {:induction false} CarefulRunsKeepGone(v: World, run: seq<Action>)
    requires GoneInv(v) && TraceFrom(v, run).Kept()
    ensures GoneInv(TraceFrom(v, run).w)
  {
    if run != [] {
      var n := |run| - 1;
      CarefulRunsKeepGone(v, run[..n]);
      StepKeepsGone(TraceFrom(v, run[..n]).w, run[n]);
    }
  }

  lemma StepKeepsGone(w: World, e: Action)
    requires GoneInv(w) && Careful(w, e)
    ensures GoneInv(Step(w, e))
  {
  }

  lemma HarmlessOnDeleted(w: World, e: Action)
    requires OnceInv(w) && w.row.None? && !Harmful(w, e)
    ensures GoneInv(Step(w, e))
  {
  }

  lemma HarmlessCannotDouble(w: World, e: Action)
    requires OnceInv(w) && !Harmful(w, e)
    ensures !CanDouble(Step(w, e))
  {
    forall more | TraceFrom(Step(w, e), more).Kept()
      ensures TraceFrom(Step(w, e), more).w.accepted <= 1
    {
      if w.row.Some? {
        StepKeepsOnce(w, e);
        CarefulRunsKeepOnce(Step(w, e), more);
      } else {
        HarmlessOnDeleted(w, e);
        CarefulRunsKeepGone(Step(w, e), more);
      }
    }
  }

  // ---------------------------------------------------------------- continuations

  lemma Extend(v: World, run: seq<Action>, t: Trace, e: Action) returns (run': seq<Action>, t': Trace)
    requires TraceFrom(v, run) == t
    ensures TraceFrom(v, run') == t' == Next(t, e)
  {
    run', t' := run + [e], Next(t, e);
    assert run'[..|run|] == run;
  }

  lemma FreshToken(w: World) returns (j: L.Token)
    ensures j !in w.jobs
  {
    j := AboveAll(w.jobs.Keys);
  }

  lemma {:induction false} AboveAll(tokens: set<L.Token>) returns (j: L.Token)
    ensures forall k :: k in tokens ==> k < j
    decreases |tokens|
  {
    j := 0;
    if k :| k in tokens {
      var rest := AboveAll(tokens - {k});
      assert forall x :: x in tokens && x != k ==> x in tokens - {k};
      j := if rest > k then rest else k + 1;
    }
  }

  /** A new job reads the unsent row and takes the free lock. */
  lemma NewJobTakes(v: World, run: seq<Action>, t: Trace, j: L.Token) returns (run': seq<Action>, t': Trace)
    requires TraceFrom(v, run) == t && t.w.holder == None && t.w.row.Some? && !t.w.row.value.Sent?
    requires j !in t.w.jobs
    ensures TraceFrom(v, run') == t' == t.(w := To(t.w, j, Holding).(holder := Some(j)))
  {
    run', t' := Extend(v, run, t, Begin(j));
    run', t' := Extend(v, run', t', Check(j));
    run', t' := Extend(v, run', t', Take(j));
  }

  /** A new job reads the unsent row, takes the free lock, and sends the message once more. */
  lemma NewJobSends(v: World, run: seq<Action>, t: Trace) returns (run': seq<Action>, t': Trace, j: L.Token)
    requires TraceFrom(v, run) == t && t.w.holder == None && t.w.row.Some? && !t.w.row.value.Sent?
    ensures TraceFrom(v, run') == t' && (t.Kept() ==> t'.Kept())
    ensures t'.w.accepted == t.w.accepted + 1 && t'.w.row == t.w.row && t'.w.holder == Some(j)
    ensures j !in t.w.jobs && t'.w.jobs == t.w.jobs[j := Accepting]
  {
    j := FreshToken(t.w);
    run', t' := NewJobTakes(v, run, t, j);
    run', t' := Extend(v, run', t', Send(j, true, 0));
  }

  lemma TwiceSoon(w: World, run: seq<Action>, t: Trace)
    requires TraceFrom(w, run) == t && t.Kept() && t.w.accepted >= 1
    requires t.w.holder == None && t.w.row.Some? && !t.w.row.value.Sent?
    ensures CanDouble(w)
  {
    var run', t', j := NewJobSends(w, run, t);
  }

  lemma StaleTakeDoubles(w: World, e: Action)
    requires TakesStale(w, e) && w.accepted >= 1
    ensures CanDouble(Step(w, e))
  {
    var run, t := Extend(Step(w, e), [], Start(Step(w, e)), Send(e.job, true, 0));
  }

  lemma LostOutcomeDoubles(w: World, e: Action)
    requires OnceInv(w) && w.row.Some? && !OutcomeIsRecorded(w, e)
    ensures CanDouble(Step(w, e))
  {
    var run, t := Extend(Step(w, e), [], Start(Step(w, e)), Expire);
    TwiceSoon(Step(w, e), run, t);
  }

  lemma ExpiredLeaseDoubles(w: World, j: L.Token)
    requires OnceInv(w) && w.row.Some? && j in w.jobs && w.jobs[j].InSend()
    ensures CanDouble(Step(w, Expire))
  {
    var v := Step(w, Expire);
    match w.jobs[j]
    case Accepting =>
      TwiceSoon(v, [], Start(v));
    case Holding =>
      var run, t, k := NewJobSends(v, [], Start(v));
      run, t := Extend(v, run, t, Send(j, true, 0));
    case Refused =>
      LateFailureDoubles(v, j);
  }

  /** While job `j`, whose send failed, waits, a second job sends the message and records it. */
  lemma SecondJobMarks(v: World, run: seq<Action>, t: Trace, j: L.Token)
    returns (run': seq<Action>, t': Trace, k: L.Token)
    requires TraceFrom(v, run) == t && t.Kept() && t.w.holder == None && t.w.row.Some? && !t.w.row.value.Sent?
    requires In(t.w, j, Refused)
    ensures TraceFrom(v, run') == t' && t'.Kept()
    ensures t'.w.row == Some(Status.Sent) && t'.w.holder == Some(k) && t'.w.accepted == t.w.accepted + 1
    ensures In(t'.w, j, Refused) && In(t'.w, k, Marked) && j != k
  {
    run', t', k := NewJobSends(v, run, t);
    run', t' := Extend(v, run', t', Mark(k));
  }

  /** The job that lost its lock marks as failed what a second job has sent, so that a third one sends it again. */
  lemma LateFailureDoubles(v: World, j: L.Token)
    requires v.holder == None && v.row.Some? && !v.row.value.Sent? && In(v, j, Refused)
    ensures CanDouble(v)
  {
    var run, t, k := SecondJobMarks(v, [], Start(v), j);
    run, t := Extend(v, run, t, Mark(j));
    run, t := Extend(v, run, t, Unlock(k));
    TwiceSoon(v, run, t);
  }

  lemma LostReplyDoubles(w: World, e: Action)
    requires OnceInv(w) && w.row.Some? && !RepliesArrive(w, e)
    ensures CanDouble(Step(w, e))
  {
    var v, j := Step(w, e), e.job;
    if v.accepted >= 2 {
      assert TraceFrom(v, []).Kept();
    } else {
      var run, t := Extend(v, [], Start(v), Mark(j));
      run, t := Extend(v, run, t, Unlock(j));
      TwiceSoon(v, run, t);
    }
  }

  lemma HarmfulDoubles(w: World, e: Action)
    requires OnceInv(w) && Harmful(w, e)
    ensures CanDouble(Step(w, e))
  {
    if !ReadIsFresh(w, e) {
      StaleTakeDoubles(w, e);
    } else if w.row.None? {
      assert TraceFrom(Step(w, e), []).Kept();
    } else if !OutcomeIsRecorded(w, e) {
      LostOutcomeDoubles(w, e);
    } else if !RepliesArrive(w, e) {
      LostReplyDoubles(w, e);
    } else {
      var j :| j in w.jobs && w.jobs[j].InSend();
      ExpiredLeaseDoubles(w, j);
    }
  }

  /** The exact condition: after a run that met the four conditions, a step makes a duplicate possible without any
      further fault if and only if it is harmful. While the row exists that means that it breaks a condition, so
      none of the four can be spared anywhere. */
  lemma DoublesIffHarmful(run: seq<Action>, e: Action)
    requires TraceOf(run).Kept()
    ensures CanDouble(Step(TraceOf(run).w, e)) <==> Harmful(TraceOf(run).w, e)
  {
    CarefulRunsKeepOnce(INITIAL, run);
    if Harmful(TraceOf(run).w, e) {
      HarmfulDoubles(TraceOf(run).w, e);
    } else {
      HarmlessCannotDouble(TraceOf(run).w, e);
    }
  }

  // ---------------------------------------------------------------- exactly when a sent row can become failed

  predicate Unsends(w: World, e: Action) {
    w.row == Some(Status.Sent) && Step(w, e).row == Some(Status.Failed)
  }

  /** While the row exists, a job in its send holds the lock, and the row is not marked as sent. */
  ghost predicate UnsentInv(w: World) { w.row.Some? ==> Exclusive(w) }

  lemma StepKeepsUnsent(w: World, e: Action)
    requires UnsentInv(w) && (w.row.None? || (LeaseLasts(w, e) && ReadIsFresh(w, e)))
    ensures UnsentInv(Step(w, e)) && !Unsends(w, e)
  {
  }

  lemma {:induction false} FreshRunsKeepUnsent(v: World, run: seq<Action>)
    requires UnsentInv(v) && TraceFrom(v, run).lasts && TraceFrom(v, run).readsFresh
    ensures UnsentInv(TraceFrom(v, run).w)
  {
    if run != [] {
      var n := |run| - 1;
      FreshRunsKeepUnsent(v, run[..n]);
      StepKeepsUnsent(TraceFrom(v, run[..n]).w, run[n]);
    }
  }

  /** As long as leases last and reads are fresh, a row marked as sent never becomes failed, whatever outcomes and
      replies are lost. */
  lemma SentIsFinal(run: seq<Action>, e: Action)
    requires TraceOf(run + [e]).lasts && TraceOf(run + [e]).readsFresh
    ensures !Unsends(TraceOf(run).w, e)
  {
    assert (run + [e])[..|run|] == run;
    FreshRunsKeepUnsent(INITIAL, run);
    StepKeepsUnsent(TraceOf(run).w, e);
  }

  /** Some continuation that meets the four conditions throughout ends with a step that turns a row marked as sent
      into a failed one. */
  ghost predicate CanUnsend(w: World) {
    exists more, last :: UnsendsBy(w, more, last)
  }

  predicate UnsendsBy(w: World, more: seq<Action>, last: Action) {
    TraceFrom(w, more).Kept() && Careful(TraceFrom(w, more).w, last) && Unsends(TraceFrom(w, more).w, last)
  }

  lemma FreshStepCannotUnsend(w: World, e: Action)
    requires UnsentInv(w) && (w.row.None? || (LeaseLasts(w, e) && ReadIsFresh(w, e)))
    ensures !CanUnsend(Step(w, e))
  {
    StepKeepsUnsent(w, e);
    forall more, last
      ensures !UnsendsBy(Step(w, e), more, last)
    {
      if TraceFrom(Step(w, e), more).Kept() && Careful(TraceFrom(Step(w, e), more).w, last) {
        FreshRunsKeepUnsent(Step(w, e), more);
        StepKeepsUnsent(TraceFrom(Step(w, e), more).w, last);
      }
    }
  }

  /** The job that lost its lock records its failure after a second job has recorded its success. */
  lemma LateFailureUnsends(w: World, run: seq<Action>, t: Trace, j: L.Token)
    requires TraceFrom(w, run) == t && t.Kept()
    requires t.w.holder == None && t.w.row.Some? && !t.w.row.value.Sent? && In(t.w, j, Refused)
    ensures CanUnsend(w)
  {
    var run', t', k := SecondJobMarks(w, run, t, j);
    assert UnsendsBy(w, run', Mark(j));
  }

  /** The job that lost its lock records its success, and a second one its failure after it. */
  lemma LateSuccessUnsends(w: World, j: L.Token)
    requires w.holder == None && w.row.Some? && !w.row.value.Sent? && In(w, j, Accepting)
    ensures CanUnsend(w)
  {
    var k := FreshToken(w);
    var run, t := NewJobTakes(w, [], Start(w), k);
    run, t := Extend(w, run, t, Send(k, false, 0));
    run, t := Extend(w, run, t, Mark(j));
    assert UnsendsBy(w, run, Mark(k));
  }

  lemma ExpiredLeaseUnsends(w: World, j: L.Token)
    requires UnsentInv(w) && w.row.Some? && j in w.jobs && w.jobs[j].InSend()
    ensures CanUnsend(Step(w, Expire))
  {
    var v := Step(w, Expire);
    match w.jobs[j]
    case Accepting => LateSuccessUnsends(v, j);
    case Refused => LateFailureUnsends(v, [], Start(v), j);
    case Holding =>
      var run, t := Extend(v, [], Start(v), Send(j, false, 0));
      LateFailureUnsends(v, run, t, j);
  }

  lemma StaleTakeUnsends(w: World, e: Action)
    requires w.row.Some? && TakesStale(w, e)
    ensures CanUnsend(Step(w, e))
  {
    var run, t := Extend(Step(w, e), [], Start(Step(w, e)), Send(e.job, false, 0));
    assert UnsendsBy(Step(w, e), run, Mark(e.job));
  }

  /** The exact condition: after a run in which leases lasted and reads were fresh, a step makes it possible that a
      sent row becomes failed without any further fault if and only if the row exists and the step breaks one of
      these two conditions. The other two do not matter. */
  lemma UnsendsIff(run: seq<Action>, e: Action)
    requires TraceOf(run).lasts && TraceOf(run).readsFresh
    ensures
      var w := TraceOf(run).w;
      CanUnsend(Step(w, e)) <==> w.row.Some? && (!LeaseLasts(w, e) || !ReadIsFresh(w, e))
  {
    var w := TraceOf(run).w;
    FreshRunsKeepUnsent(INITIAL, run);
    if w.row.None? || (LeaseLasts(w, e) && ReadIsFresh(w, e)) {
      FreshStepCannotUnsend(w, e);
    } else if !ReadIsFresh(w, e) {
      StaleTakeUnsends(w, e);
    } else {
      var j :| j in w.jobs && w.jobs[j].InSend();
      ExpiredLeaseUnsends(w, j);
    }
  }

  // ---------------------------------------------------------------- each condition can fail alone

  /** Job `j` is delivered and reads the row. */
  lemma Reads(run: seq<Action>, t: Trace, j: L.Token) returns (run': seq<Action>, t': Trace)
    requires TraceOf(run) == t && j !in t.w.jobs && t.w.row.Some? && !t.w.row.value.Sent?
    ensures TraceOf(run') == t' == t.(w := To(t.w, j, Checked))
  {
    run', t' := Extend(INITIAL, run, t, Begin(j));
    run', t' := Extend(INITIAL, run', t', Check(j));
  }

  lemma LeaseExpires() returns (run: seq<Action>, t: Trace)
    ensures TraceOf(run) == t && t.readsFresh && t.recorded && t.arrive
    ensures t.w.row == Some(Status.Pending) && t.w.holder == None && t.w.accepted == 0
    ensures In(t.w, 1, Holding) && In(t.w, 2, Checked)
  {
    run, t := NewJobTakes(INITIAL, [], Start(INITIAL), 1);
    run, t := Reads(run, t, 2);
    run, t := Extend(INITIAL, run, t, Expire);
  }

  /** A lock that expires during a slow send lets a second job send the message again. */
  lemma ExpiredLeaseSendsTwice() returns (run: seq<Action>)
    ensures TraceOf(run).readsFresh && TraceOf(run).recorded && TraceOf(run).arrive && TraceOf(run).w.accepted == 2
  {
    var t;
    run, t := LeaseExpires();
    run, t := Extend(INITIAL, run, t, Send(1, true, 0));
    run, t := Extend(INITIAL, run, t, Take(2));
    run, t := Extend(INITIAL, run, t, Send(2, true, 0));
  }

  lemma FirstJobSends() returns (run: seq<Action>, t: Trace)
    ensures TraceOf(run) == t && t.Kept()
    ensures t.w == World(Some(Status.Pending), Some(1), map[1 := Accepting, 2 := Checked], 1)
  {
    run, t := Reads([], Start(INITIAL), 1);
    run, t := Reads(run, t, 2);
    run, t := Extend(INITIAL, run, t, Take(1));
    assert t.w == World(Some(Status.Pending), Some(1), map[1 := Holding, 2 := Checked], 0);
    run, t := Extend(INITIAL, run, t, Send(1, true, 0));
  }

  lemma ReadGoesStale() returns (run: seq<Action>, t: Trace)
    ensures TraceOf(run) == t && t.Kept()
    ensures t.w == World(Some(Status.Sent), None, map[1 := Over, 2 := Checked], 1)
  {
    run, t := FirstJobSends();
    run, t := Extend(INITIAL, run, t, Mark(1));
    run, t := Extend(INITIAL, run, t, Unlock(1));
  }

  /** A job that read the row before another one sent the message sends it again, because the status is not read
      under the lock. */
  lemma StaleReadSendsTwice() returns (run: seq<Action>)
    ensures TraceOf(run).lasts && TraceOf(run).recorded && TraceOf(run).arrive && TraceOf(run).w.accepted == 2
  {
    var t;
    run, t := ReadGoesStale();
    run, t := Extend(INITIAL, run, t, Take(2));
    run, t := Extend(INITIAL, run, t, Send(2, true, 0));
  }

  lemma StaleJobRaises() returns (run: seq<Action>, t: Trace)
    ensures TraceOf(run) == t && t.lasts && t.recorded && t.arrive
    ensures t.w == World(Some(Status.Sent), Some(2), map[1 := Over, 2 := Refused], 1)
  {
    run, t := ReadGoesStale();
    run, t := Extend(INITIAL, run, t, Take(2));
    run, t := Extend(INITIAL, run, t, Send(2, false, 0));
  }

  /** A stale job that fails turns a sent row into a failed one. */
  lemma StaleFailureHidesDelivery() returns (run: seq<Action>)
    ensures TraceOf(run).lasts && TraceOf(run).recorded && TraceOf(run).arrive
    ensures TraceOf(run).w.accepted == 1 && TraceOf(run).w.row == Some(Status.Failed)
  {
    var t;
    run, t := StaleJobRaises();
    run, t := Extend(INITIAL, run, t, Mark(2));
  }

  lemma OutcomeIsLost() returns (run: seq<Action>, t: Trace)
    ensures TraceOf(run) == t && t.lasts && t.readsFresh && t.arrive
    ensures t.w == World(Some(Status.Pending), None, map[1 := Over], 1)
  {
    run, t := NewJobTakes(INITIAL, [], Start(INITIAL), 1);
    run, t := Extend(INITIAL, run, t, Send(1, true, 0));
    run, t := Extend(INITIAL, run, t, Abort(1));
  }

  /** A job that is cancelled after its message was accepted leaves the row pending, and recovery sends it again. */
  lemma LostOutcomeSendsTwice() returns (run: seq<Action>)
    ensures TraceOf(run).lasts && TraceOf(run).readsFresh && TraceOf(run).arrive && TraceOf(run).w.accepted == 2
  {
    var t;
    run, t := OutcomeIsLost();
    run, t := NewJobTakes(INITIAL, run, t, 2);
    run, t := Extend(INITIAL, run, t, Send(2, true, 0));
  }

  /** A call that raises although its message got through is repeated. */
  lemma LostReplySendsTwice() returns (run: seq<Action>)
    ensures TraceOf(run).lasts && TraceOf(run).readsFresh && TraceOf(run).recorded && TraceOf(run).w.accepted == 2
  {
    var t;
    run, t := NewJobTakes(INITIAL, [], Start(INITIAL), 1);
    run, t := Extend(INITIAL, run, t, Send(1, true, 1));
  }
}
