# Auction monitoring, modelled in Dafny

This project models the monitoring engine of a Telegram bot that watches Yahoo auctions, and proves what the engine
promises over whole runs: which notifications are decided, when auctions are polled, who holds a lock, how fast
requests may go, what becomes of every notification row, and what the page scanner extracts. `dafny verify
dfyconfig.toml` checks everything.

## How it is built

| File | What it holds |
|---|---|
| `AuctionTypes`, `Lists`, `Series`, `Rates`, `Backoff` | shared values (time in whole microseconds), lists without repetitions, induction over steps, products of time and rate, doubling waits |
| `Diff`, `Notifications`, `Polling` | the pure domain: comparing states, deciding notifications, adaptive intervals |
| `Tables` | the rows, the contents of the database as a value (`Db`), and the repositories as methods of a `Session` |
| `Engine`, `Monitoring`, `Watchlist` | fan-out, one poll, adding and removing watches, one scheduler tick |
| `Runs` | the system: every committed transaction as one event, what it does to each auction, the common invariant |
| `History`, `Details`, `Pacing`, `Timeliness` | what whole runs decide and store, how far apart polls are, and when notices come |
| `Lifecycle`, `ErrorStreaks`, `Fairness` | when auctions are monitored, how errors stop them, why none starves |
| `Delivery` | notification rows over whole runs, from decision to deletion |
| `Counterexamples` | whole runs in which the code does less than one may expect |
| `Sending`, `SendJobs`, `Duplicates`, `JobRuns` | the Telegram retry loop, send jobs step by step, when they can double a message, and the system together with its jobs |
| `Lock`, `RateLimit` | the Redis lease lock, the Redis and the in-memory token buckets |
| `Extractor`, `PageData` | the page scanner, and JSON texts (RFC 8259) it must recover |
| `Validation` | auction URLs |

Code that updates state is written as classes and methods in the source's own order of statements, each proved against
a function of the old state: `Session` and the services on it, the diff object, `RedisLock`, `RedisBucket`,
`InMemoryRateLimiter`, `TelegramSender`, `SendJob`, the scanner loops. Runs are sequences of events over those
functions; a query whose order the database leaves open, a fetched page and the clock are part of the event. Polls,
`add_watch`, `remove_watch` and ticks are single transactions; the lock and the send jobs are split into their steps.

## What the proofs say about the code

The main results are listed under "Model". The following are places where the code does less than its comments or the
repository's README say, each stated as a lemma:

- A send job reads the status before it takes the lock, so "no duplicates after a retry" is not unconditional.
  `Duplicates.DoublesIffHarmful` gives the exact condition, and for each of the four faults a run in which it alone
  doubles a message: `Duplicates.StaleReadSendsTwice`, `Duplicates.ExpiredLeaseSendsTwice`,
  `Duplicates.LostOutcomeSendsTwice`, `Duplicates.LostReplySendsTwice`. A sent row can even end up as failed,
  exactly when a lease ran out during a send or a read went stale: `Duplicates.UnsendsIff`, with a run in
  `Duplicates.StaleFailureHidesDelivery`.
- The default Telegram retries can pause longer than the send lock lives, and longer than a job may run:
  `Sending.DefaultRetriesOutlastLease` says after how many errors.
- The poll lock excludes two polls of one auction only while a poll ends within the lease; the job timeout is longer
  than the lease: `Lock.OvertakenIff`, `Lock.LongPollIsOvertaken`.
- Restarting an auction that errors stopped does not clear its error counter, so the next failure stops it again:
  `ErrorStreaks.NoFreshStartAfterGivingUp`. A user who already watches it cannot restart it at all:
  `Lifecycle.AddWatchRestartsIff`.
- The Redis bucket forgets slots it has promised more than 60 seconds ahead: `RedisRateLimit.LongQueueIsForgotten`,
  with the exact condition in `RedisRateLimit.ExpiryUnobservableIff` and `RedisRateLimit.CallUsesOneIff`.
- A URL of up to 2048 characters can have a canonical form that is itself too long: `Validation.LongestUrlIsNotFixed`,
  with the exact condition in `Validation.CanonicalFormIsFixedIff`.
- A lock object that tries to acquire the lock it holds can no longer release it: `Lock.ReacquireForfeitsRelease`.
- The title, start time, quantity and store flag of an auction row are those of the last observation that was stored,
  which is the last that changed one of the six compared fields, and can be out of date:
  `Details.RowShowsLastStored`, `Details.RowShowsLastChange`, `Counterexamples.TitleGoesStale`, with the exact
  condition in `Details.PollRefreshesDetailsIff`. The six compared fields are always current:
  `History.RowShowsLastObservation`.
- `poll` does not look at `next_poll_at`, and a tick queues an auction again once the lock's lifetime has passed, so
  jobs left over in the queue poll early: `Counterexamples.LeftoverJobPollsEarly`, with a sufficient condition for its
  absence in `Pacing.NoPollIsEarly`.
- The retention of snapshots does not spare an auction's latest one, so a poll after a quiet time longer than the
  retention decides nothing, whatever has changed: `Counterexamples.PurgeHidesChange`, with the exact condition in
  `History.SnapshotLogRefinesHistory` and `History.BaselineIff`.

## Model

| member | source | states |
|---|---|---|
| History.SnapshotLogRefinesHistory | app/services/monitoring_service.py:81-115 | In every run, with errors, stops, restarts, purges and other auctions in between, a poll that finds a snapshot to compare with decides exactly the kinds that a system decides which keeps every observation and compares consecutive ones, and a poll that finds none decides nothing; if no purge has removed the latest snapshot the two systems agree on every poll |
| History.BaselineIff | app/repositories/snapshots.py:40-44 | A snapshot to compare with exists iff the auction was observed and no purge has removed its latest snapshot since |
| History.TablesTrackObservations | app/services/monitoring_service.py:86-115 | After every step of every run the last poll time and the six compared fields in the tables are those of the last observation, whether or not it was stored or its snapshot purged; an auction never observed has no snapshot |
| History.RowShowsLastObservation | app/services/monitoring_service.py:87-91 | In every run the compared fields of the auction row are those of the last observation |
| Details.RowShowsLastStored | app/services/monitoring_service.py:84-91 | In every run, whatever is purged, the row's title, start time, quantity and store flag are those of the last observation that found no snapshot to compare with or changed a compared field, and the latest snapshot, if one is left, is that observation's |
| Details.RowShowsLastChange | app/repositories/auctions.py:45-57 | In every run whose purges spare the auction's latest snapshot, the row's title, start time, quantity and store flag are those of the last observation that changed a compared field, and the latest snapshot is that observation's |
| Details.PollRefreshesDetailsIff | app/services/monitoring_service.py:84-91 | After a poll the row shows the title, start time, quantity and store flag it saw iff there was no snapshot, a compared field changed, or the row showed them before |
| Counterexamples.TitleGoesStale | app/services/monitoring_service.py:84-91 | With any settings, in a run of the system with its fan-out, an auction whose title alone changes between two polls keeps the old title in its row |
| Counterexamples.PurgeHidesChange | app/scheduler/scheduler.py:95-107 | With any settings and any retention time, a poll after the purge of the only snapshot decides nothing although the price has changed, where a system that keeps every observation decides CHANGE |
| Details.StoredIsLastChange | app/domain/diff.py:59-70 | Comparing each observation with the last stored one stores the same observations as comparing it with the one before |
| History.TimedAtMostOnce | app/domain/notifications.py:59-69 | Over any run, with errors, purges, re-watches and ends that move away and back, one timed kind for one end time is decided by at most one poll |
| History.TimedAtLeastOnce | app/domain/notifications.py:49-69 | While the end time stays put after a baseline that is not purged, a crossing that the successful polls move past is decided by one of them, because failed polls leave the last poll time alone |
| History.TimedExactlyOnce | app/services/monitoring_service.py:61-115 | Such a crossing is decided by exactly one poll of the whole run |
| Timeliness.NoticeIsOnTime | app/services/monitoring_service.py:93-115 | With any settings, as long as observations come at most some delay late and no purge removes the auction's latest snapshot, the system decides each timed notice of a fixed end not before its moment and less than the overshoot of the intervals plus the delay after it, whatever the delay and however early polls come |
| Timeliness.PollsAreFew | app/services/monitoring_service.py:112-114 | With the default intervals, as long as polls follow ticks, a run from an observation u before a fixed end on makes at most ceil(max(0, u - 24h) / 6h) + 111 observations before that end |
| Pacing.NoPollIsEarly | app/scheduler/scheduler.py:66-80 | As long as each poll was enqueued by a tick after the poll before it, no poll comes before the instant that the poll before it asked for, through errors, stops, restarts and unwatches that do not bring it forward |
| Counterexamples.LeftoverJobPollsEarly | app/scheduler/scheduler.py:76-80 | With any settings that have a polling interval, an auction that two ticks pick before a worker gets to it has two jobs queued, and the second polls before the instant that the first asked for |
| Timeliness.ObservationsArePaced | app/services/monitoring_service.py:108-114 | Under the same condition successive observations are as far apart as the adaptive interval of the earlier one |
| Timeliness.ObservationSchedulesNext | app/services/monitoring_service.py:108-114 | After a successful poll the row is due after the adaptive interval for the time left, or not at all once closed |
| Timeliness.DueByTimeLeft | app/domain/polling.py:36-48 | After an observation the next poll is due after the interval of the bucket of the time left, each bucket including its upper end; an unknown end is treated like one to six hours |
| Delivery.TimedNoticeIsRecordedOnce | app/notifications/engine.py:30-41 | End to end: the one poll that decides a crossing makes a row for it for every watcher who is to be notified then, and no other step of the whole run makes a row for that watcher, kind and end |
| Delivery.ChangeIsRecordedOnce | app/notifications/engine.py:30-41 | End to end: each CHANGE, EXTENSION or CLOSED that a poll decides makes a row in that step for every watcher who is to be notified then, under the id of the snapshot it stored, and no other step of the whole run makes one with that key |
| Delivery.DecisionsBecomeRows | app/services/monitoring_service.py:101-106 | A poll creates a row for a key iff no row has it, its watch is of the auction and has notifications on, its user is active, the kind is among those decided, and the key is the end time or the new snapshot's id |
| Delivery.RowsSayWhatWasDecided | app/notifications/engine.py:30-41 | Each row that a poll inserts has exactly the text rendered from its kind, the state of the latest snapshot before the poll, the observed state, the auction's URL and the watcher's own name for it; it is pending, and created when the poll was made |
| Delivery.EditTakesEffect | app/services/auction_service.py:131-160 | A watch that is switched off is not notified, one that an active user switches on is, and nothing else changes |
| Delivery.KeyIsClaimedOnce | app/repositories/notifications.py:14-35 | Over any run, one (watch, kind, dedup key) gets at most one row ever, even after rows and watches are deleted |
| Delivery.PendingRowSurvives | app/repositories/user_auctions.py:63-83 | A pending row stays pending, with its text, through polls, ticks, cleanups of closed auctions, purges and other users' changes, until a job records its outcome or its own user unwatches |
| Delivery.PendingRowIsRecovered | app/scheduler/scheduler.py:114-124 | A pending row is enqueued again by every tick more than five minutes after its creation, until settled or unwatched, if fewer than 500 others are not newer, and only if fewer than 500 are older |
| Delivery.TickEvolves | app/repositories/user_auctions.py:69-81 | A tick's cleanup deletes rows only of links that go with them, never a pending one, changes none, and keeps keys unique and references intact |
| Delivery.RemoveEvolves | app/repositories/user_auctions.py:27-33 | Deleting a watch of a known user and auction deletes exactly the notifications of that watch and changes no other; keys stay unique and references intact |
| Delivery.SettleEvolves | app/repositories/notifications.py:37-48 | Recording an outcome gives that row the recorded status, and the time if it was sent; every other row and column stays, and no row goes |
| Delivery.NotesAlways | app/models/notification.py:11-19 | In every reachable state keys are unique, every row's watch exists and every row has a text, so a send never fails for want of one |
| Duplicates.SentMeansAccepted | app/workers/tasks.py:108-125 | Whatever the interleaving of jobs, crashes, expired locks, lost replies and deletions, a row marked sent got into the chat at least once |
| Duplicates.DoneIsNotSentAnew | app/workers/tasks.py:83-93 | A job that begins after the row was deleted or marked sent sends nothing |
| Duplicates.AcceptedAtMostOnce | app/workers/tasks.py:83-127 | A message gets into the chat at most once if no lock expires during a send, no job takes the lock on a status that has changed since it was read, no job is lost between acceptance and record, and no call raises although its message got through |
| Duplicates.DoublesIffHarmful | app/workers/tasks.py:83-127 | After any run that met the four conditions, a step makes two copies possible without any further fault iff it is harmful: while the row exists, iff it breaks one of the conditions; once the row is deleted, iff it sends a message that is already there or sends it twice |
| Duplicates.StaleReadSendsTwice | app/workers/tasks.py:94-105 | With the second condition alone broken two copies are possible |
| Duplicates.ExpiredLeaseSendsTwice | app/workers/tasks.py:100-111 | With the first condition alone broken two copies are possible |
| Duplicates.LostOutcomeSendsTwice | app/workers/tasks.py:111-127 | With the third condition alone broken two copies are possible |
| Duplicates.LostReplySendsTwice | app/notifications/sender.py:59-70 | With the fourth condition alone broken two copies are possible |
| Duplicates.UnsendsIff | app/workers/tasks.py:83-127 | After any run in which leases lasted and reads were fresh, a step makes it possible that a row marked sent becomes failed without any further fault iff the row exists and the step lets a lease run out during a send or takes the lock on a stale read; the other two conditions do not matter |
| Duplicates.SentIsFinal | app/workers/tasks.py:112-124 | As long as leases last and reads are fresh, no step marks a sent row as failed, whatever outcomes and replies are lost |
| Duplicates.StaleFailureHidesDelivery | app/workers/tasks.py:112-116 | With the second condition alone broken the row of a delivered message can end up as failed |
| JobRuns.SentRowsWereAccepted | app/workers/tasks.py:108-125 | In every state of the whole system with its jobs, where only jobs settle rows, a notification marked sent got into its chat at least once |
| JobRuns.CarefulJobsSendOnce | app/workers/tasks.py:83-127 | In the whole system, too, a notification whose jobs meet the four conditions gets into its chat at most once |
| SendJobs.SendJob.Run | app/workers/tasks.py:75-127 | An undisturbed job skips a missing or sent row and a locked one, and otherwise marks the row sent iff the send returned, else failed, and frees the lock; the message gets into the chat once for a send that returned and once for every lost reply |
| SendJobs.SendJob.CheckStatus | app/workers/tasks.py:83-98 | The job goes on iff the row exists and is not sent, and takes its text |
| SendJobs.SendJob.AcquireLock | app/workers/tasks.py:100-106 | The job goes on iff nobody holds the notification's lock |
| SendJobs.SendJob.SendText | app/workers/tasks.py:108-112 | The text gets into the chat once if the send returns, and once for every lost reply |
| SendJobs.SendJob.RecordOutcome | app/workers/tasks.py:113-124 | The row, if it still exists, becomes sent with the time or failed; nothing else changes |
| SendJobs.SendJob.ReleaseLock | app/workers/tasks.py:126-127 | The lock is freed iff it is still this job's |
| Sending.TelegramSender.Send | app/notifications/sender.py:26-70 | Every call before the last is answered by flood control or an API error, and the last by acceptance, a block or another error, or it is call number max(max_retries, 0) + 1; the send succeeds iff the last call is accepted, and sleeps exactly the pauses between the calls; every call that got through, with or without a reply, adds the text to the chat; a missing text is a ValueError before any call |
| Sending.ChatGrows | app/notifications/sender.py:31-70 | The chat grows by the text, once for every lost reply and once if the last call was accepted |
| Sending.DefaultRetriesOutlastLease | app/notifications/sender.py:59-70 | After n of the default retries, all API errors, the next call starts within the 60 s of the lock iff n <= 3 and within the 120 s of the job timeout iff n <= 4; after four it starts at 75 s, after five at 155 s |
| Sending.ApiErrorPauses | app/notifications/sender.py:65-70 | The pauses after n API errors are the sum of the capped doubling waits |
| Sending.PauseAfterReply | app/notifications/sender.py:41-70 | After flood control the pause is the delay that Telegram asks for, at least a second; after an API error the doubling wait for the attempt, up to 120 s; after any other reply none |
| Engine.FanOutIsExact | app/notifications/engine.py:30-41 | A fan-out creates a row for exactly the {watchers x decisions} keys not yet claimed; old rows are untouched, new ones are pending with a text, ids are distinct and keys stay unique |
| Engine.RepeatedFanOutIsEmpty | app/repositories/notifications.py:17-21 | Repeating a fan-out creates nothing and changes no row |
| Engine.FanOutConserves | app/notifications/engine.py:33-41 | The returned ids are exactly those of the rows added, and nothing found is changed |
| Engine.FanOutKeys | app/notifications/engine.py:33-37 | The keys in the table afterwards are those found and those of the jobs, no more and no fewer |
| Engine.FanOutRows | app/notifications/engine.py:33-41 | Every created row is what one of the jobs calls for: its key, the text rendered from its decision, the URL and the watch's name, pending, created now |
| Engine.FanOutTakesIds | app/repositories/notifications.py:14-35 | Every job takes one id from the sequence, whether its claim inserts a row or conflicts |
| Engine.JobsAreProduct | app/notifications/engine.py:31-33 | The nested loop visits exactly the pairs of a watcher and a decision |
| Engine.NotificationEngine.CreateJobs | app/notifications/engine.py:22-41 | The nested loop performs the fan-out: watchers outside, decisions inside, claims already made skipped |
| Engine.NotificationEngine.CreateJob | app/notifications/engine.py:34-39 | One pass claims the key and gives a new row its text, or changes no row |
| Monitoring.MonitoringService.Poll | app/services/monitoring_service.py:54-121 | A poll of a missing or stopped auction changes nothing; otherwise it digests the observation or handles the error, and hands exactly the rows it created to the queue |
| Monitoring.MonitoringService.Observe | app/services/monitoring_service.py:79-119 | A successful fetch clears errors, stores a changed state, fans out what the change calls for and schedules the next poll |
| Monitoring.MonitoringService.Compare | app/services/monitoring_service.py:79-100 | The decisions are those of the state against the latest snapshot and the previous poll time as they were before this poll |
| Monitoring.MonitoringService.Record | app/services/monitoring_service.py:84-91 | A snapshot is stored and the row updated iff there was none or a compared field changed |
| Monitoring.MonitoringService.Schedule | app/services/monitoring_service.py:108-115 | A closed auction is taken off monitoring, an open one gets its next poll; the last poll time is the observation's |
| Monitoring.MonitoringService.HandleError | app/services/monitoring_service.py:129-151 | A stopping error stops at once; a retryable one counts, backs off by the new count, and stops from the limit on |
| Runs.InvAlways | app/services/monitoring_service.py:79-115 | In every reachable state an active auction is open and scheduled, snapshots are in order, and the latest agrees with the row on every compared field |
| Runs.StepOn | app/services/monitoring_service.py:54-116 | Every transaction acts on each auction's row and snapshots by one of nine actions, and on no other auction |
| Runs.ObservationIsRecorded | app/services/monitoring_service.py:81-91 | After an observation the row shows its compared fields, stored or not |
| Lifecycle.ActiveIffRunning | app/repositories/auctions.py:64-76 | In every reachable state monitoring is on iff the auction is open and neither errors nor a lack of watchers switched it off since it was created or resumed |
| Lifecycle.WatchedOpenAuctionIsMonitored | app/services/auction_service.py:63-77 | In every reachable state an open auction with a watcher is monitored and scheduled iff errors did not stop it since it was last resumed |
| Lifecycle.AbandonedStaysUnwatched | app/scheduler/scheduler.py:69-74 | An auction stopped for lack of watchers has none until it is resumed |
| Lifecycle.AddWatchRestartsIff | app/services/auction_service.py:68-76 | Adding a known open auction leaves it monitored iff it was already, or the user did not watch it yet |
| Lifecycle.NewAuctionIsDueIff | app/repositories/auctions.py:23-43 | A new auction shows the compared fields that were fetched, and a tick may pick it from the moment it is added iff it is open |
| Lifecycle.NewAuctionShowsPage | app/repositories/auctions.py:20-44 | The row of a new auction has its canonical URL, every column of the fetched page, and no error |
| Lifecycle.EveryRowHasItsUrl | app/services/auction_service.py:53-67 | In every reachable state the URL of a row is the canonical page of its own auction |
| Lifecycle.ClosedIsFinal | app/services/monitoring_service.py:58-59 | Once an auction is closed, no later poll observes it, decides anything for it or monitors it again |
| Lifecycle.ClosedDecidedIff | app/domain/notifications.py:71-74 | The closing is decided iff the poll sees the auction closed and has a snapshot to compare with |
| Lifecycle.ClosedIsReportedLast | app/domain/notifications.py:71-74 | After the poll that decides the closing nothing is decided for that auction; so it is decided at most once |
| Lifecycle.GraceIsKept | app/services/auction_service.py:98-106 | After its last watcher left, an auction that nothing else acts on is given up no sooner than the grace period later, and only if nobody watches it by then |
| Lifecycle.OneWatchPerUser | app/models/user_auction.py:9-16 | In every reachable state a user has at most one link to an auction |
| ErrorStreaks.CounterIsStreak | app/repositories/auctions.py:78-96 | The error counter is the number of retryable failures since the last successful poll or the creation |
| ErrorStreaks.FailureStopsIff | app/services/monitoring_service.py:140-149 | A failure stops monitoring iff it is at least the N-th of its streak; otherwise the next poll is due after the backoff for its place in the streak |
| ErrorStreaks.FirstFailureWaits | app/services/monitoring_service.py:138-162 | In every run the first failure of a streak, if it does not stop the auction, makes it due after exactly the base backoff or the cap, whichever is less |
| ErrorStreaks.NextFailureWaits | app/services/monitoring_service.py:138-162 | In every run each further failure of a streak, if it does not stop the auction, makes it due after exactly twice the wait of the failure before it, or the cap if that is less |
| ErrorStreaks.FailureIsNoted | app/repositories/auctions.py:78-89 | After a failed or stopping poll the row has the first 1000 characters of the message |
| ErrorStreaks.SuccessClearsError | app/repositories/auctions.py:91-96 | After a successful poll the row has no error and a counter of 0 |
| ErrorStreaks.GivesUpNoSooner | app/services/monitoring_service.py:140-162 | From the first failure of a streak to each later one, up to the N-th, which stops the auction, all the backoffs between them have passed, as long as polls follow ticks from the first failure on; unwatches and restarts in between are allowed if they do not bring the next poll forward |
| ErrorStreaks.StreakBegan | app/repositories/auctions.py:78-96 | Every streak has a first failure |
| Pacing.GraceCoversBackoff | app/services/auction_service.py:98-106 | An unwatch does not bring the next poll forward if the grace period is at least the backoff |
| ErrorStreaks.NoFreshStartAfterGivingUp | app/repositories/auctions.py:71-76 | After errors stopped an auction, until a poll succeeds, every further failure stops it again, however often it is resumed |
| Backoff.WaitGrowsToCap | app/services/monitoring_service.py:157-162 | The backoff never shrinks as the count grows, and never exceeds the cap |
| Backoff.WaitDoubles | app/notifications/sender.py:65-70 | Each wait is twice the one before it, up to the cap, from the base on |
| Backoff.TotalWaitUncapped | app/services/monitoring_service.py:157-162 | Before the cap, the first n backoffs add up to base * (2^n - 1) |
| Fairness.NoStarvation | app/repositories/auctions.py:98-110 | An auction due since p with r others due no later is picked, or otherwise moved, before (r + w) / limit + 1 ticks have passed after p, where w counts the polls of others that meanwhile write a due time of p or before, as only a page observed at least one interval earlier can make them |
| Fairness.EachTickServesTheLine | app/scheduler/scheduler.py:68-80 | While an auction waits, each tick takes a full batch out of the line before it, and at most one auction joins for every poll that writes a due time of p or before |
| Fairness.NobodyJoins | app/services/monitoring_service.py:108-142 | An action that writes no due time of p or before lets no auction into the line of those due by p: whoever is in it afterwards was there before, untouched |
| Watchlist.AuctionService.AddWatch | app/services/auction_service.py:43-84 | The user, the auction, the link and the resumption come about as the URL, the fetched page, the closed flag and an existing link allow; a failed fetch leaves nothing behind; the result says which of the five cases it was |
| Watchlist.OutcomeTellsWhatHappened | app/services/auction_service.py:43-84 | Added means exactly one new link, with notifications on; otherwise there is none because the page could not be fetched (and nothing else was done), the auction is closed, or the user had one |
| Watchlist.AddLeavesTheRest | app/services/auction_service.py:47-84 | An unknown user becomes an active one; of the known auctions only the one that is added changes, which a new watch switches on and makes due at once if it was off |
| Watchlist.AuctionService.RemoveWatch | app/services/auction_service.py:86-109 | The link and its notifications go; the last watcher's leaving puts the next poll at the end of the grace period; it reports removal iff there was a link |
| Watchlist.RemoveIsExact | app/services/auction_service.py:86-109 | From any state: the watch of a known user and auction goes with its notifications, and no other watch, notification, user or snapshot changes |
| Watchlist.LastLeavingSetsDue | app/services/auction_service.py:98-106 | From any state: the auction is due after the grace period iff its last watcher has left; no other auction changes |
| Watchlist.EveryIdIsNamed | app/domain/validation.py:12-34 | Every auction id is named by its canonical URL, as long as that has at most 2048 characters |
| Ticking.Scheduler.Tick | app/scheduler/scheduler.py:61-85 | Due auctions without watchers stop, the others move by the lock's lifetime and are enqueued; finalized links go; old pending notifications are enqueued again |
| Ticking.DueListIsRanked | app/repositories/auctions.py:98-110 | The due list holds as many of the monitored, open, due auctions as the limit allows, and the i-th in it is the one with the i-th earliest due time |
| Ticking.PendingListIsRanked | app/repositories/notifications.py:59-69 | The recovery list holds all, or the first 500, of the pending rows created before the cutoff, the i-th being the one with the i-th earliest creation |
| Ticking.QueriesHaveResults | app/scheduler/scheduler.py:61-85 | In every state both queries have such a result, so a tick is possible at any time |
| Ticking.CleanupIsExact | app/repositories/user_auctions.py:69-81 | For any tick from any state: a watch is gone afterwards iff its auction is closed and no notification of it is pending; its notifications go with it, and every other watch and notification is unchanged |
| Ticking.TickMovesExactly | app/scheduler/scheduler.py:68-80 | For any tick from any state: a listed auction that somebody watches is due after the lock's lifetime, one that nobody watches stops, and nothing else about auctions, users or snapshots changes |
| Ticking.EnqueuedIff | app/scheduler/scheduler.py:68-76 | A poll is enqueued for exactly the due auctions that somebody watches |
| Ticking.EnqueuedInOrder | app/scheduler/scheduler.py:68-76 | The polls are enqueued in the order of the due list, each watched auction as often as it is listed |
| Ticking.Scheduler.PickDue | app/scheduler/scheduler.py:68-80 | The loop over the due list changes exactly the listed rows and enqueues exactly the watched ones, in order |
| Tables.LatestIsLast | app/repositories/snapshots.py:14-21 | As long as the clock does not run backwards, the latest snapshot by (observed_at, id) is the one inserted last |
| Tables.LatestIsNewest | app/repositories/snapshots.py:14-21 | In any log no snapshot is later than the latest one, and none of the same instant has a larger id |
| Tables.KeptIsSuffix | app/repositories/snapshots.py:40-44 | A purge removes a prefix of an auction's snapshots |
| Tables.KeptExactly | app/repositories/snapshots.py:40-44 | A purge keeps exactly the snapshots not older than the cutoff, in their order |
| Tables.SnapshotKeepsComparedFields | app/services/state_mapper.py:6-17 | A state rebuilt from a snapshot is the state that was stored, but for its id, title, start time, quantity and store flag |
| Tables.Session.Claim | app/repositories/notifications.py:14-35 | A claim inserts one pending row iff no row has its key, and otherwise changes no row |
| Tables.Session.RecordError | app/repositories/auctions.py:78-89 | The counter grows by one, the message is cut to 1000 characters, the due time is set; a missing row gives 0 |
| Tables.Session.CreateSnapshot | app/repositories/snapshots.py:23-38 | One snapshot with a fresh id is appended to the auction's |
| Diff.DiffStates | app/domain/diff.py:45-85 | Every flag of the diff object is raised iff its field differs (the price by the threshold, with its missing cases), and none for a first observation |
| Diff.FlagsSay | app/domain/diff.py:53-85 | Each flag says that its own field differs (the price by the threshold, or one price missing), a new bid that it is reported, or the count grew, or a known price changed; a first observation raises none |
| Diff.ChangedIffFieldsDiffer | app/domain/diff.py:18-27 | With the threshold that polls use, a diff has changes iff one of the six compared fields differs |
| Diff.NoDrift | app/domain/diff.py:59-70 | For any threshold k >= 1 and any number of observations, the stored price is within k - 1 of the last one seen and the other compared fields are equal to it |
| Notifications.EvaluateNotifications | app/domain/notifications.py:39-90 | The list holds, in order, the timed kinds whose crossings lie in the window, then those of the change table, each with both states |
| Notifications.TimedDecidedIff | app/domain/notifications.py:59-69 | A timed kind is decided iff there is a previous state, the end is known, and its crossing is after the previous poll and not after this one |
| Notifications.DecisionTable | app/domain/notifications.py:71-90 | Something non-timed is decided iff a compared field changed; kinds never repeat; CLOSED iff the auction went from open to closed, and then neither EXTENSION nor CHANGE; EXTENSION iff the end moved to the future on an auction that is not closing |
| Notifications.ChangeTable | app/domain/notifications.py:71-88 | Besides, EXTENSION comes with CHANGE iff the price, the bid count or the new-bid flag says so |
| Notifications.EveryDecisionHasKey | app/domain/notifications.py:93-106 | No decision of a poll raises ValueError for want of an end time or a snapshot id |
| Polling.PollBudget | app/domain/polling.py:26-48 | Polls paced by the default intervals number at most ceil(max(0, u - 24h) / 6h) + 111 in the last u before a fixed end |
| Polling.BudgetDrops | app/domain/polling.py:36-48 | Each poll uses up one unit of the bucket-wise budget, also when the next one falls into another bucket |
| Polling.NoBucketIsJumped | app/domain/polling.py:38-48 | Whatever the intervals, threshold and delay, a poll that steps over a crossing comes less than the overshoot plus the delay after it, also when its interval began in a slower bucket |
| Polling.OvershootIsLeast | app/domain/polling.py:36-48 | The overshoot is the least bound on how far the interval chosen before a crossing goes past it |
| Polling.DefaultOvershoot | app/config.py:28-44 | With the default settings the overshoot of the 30, 15 and 5 minute notices is 2, 1 and 1 minutes, the interval of their own buckets |
| Polling.NoticeIsPrompt | app/domain/polling.py:36-48 | Some poll steps over a notice's crossing and comes less than the overshoot plus the delay after it, for any intervals and delay, early polls and polls out of order |
| Polling.NoticesArePromptAndOrdered | app/config.py:28-33 | With a delay of at most 9 minutes the three notices fall into three distinct polls, in order, each on time; polls may be early |
| Polling.ThreeNoticesIff | app/config.py:28-33 | The three notices always fall into three distinct polls, in order, iff the delay is at most 9 minutes |
| RedisRateLimit.SlotsRespectLimit | app/infrastructure/redis_rate_limit.py:16-43 | Slots never move back, stored tokens stay in [0, capacity - 1], and calls i..j reserve at most capacity + rate * (slot j - slot i), as long as no expiry loses anything |
| RedisRateLimit.ShortWaitsLoseNothing | app/infrastructure/redis_rate_limit.py:33-43 | Nothing is lost to the 60 s expiry if every script-local wait is at most 60 - capacity / rate |
| RedisRateLimit.ExpiryUnobservableIff | app/infrastructure/redis_rate_limit.py:26-42 | An expired key gives every later call what the kept one would have given iff the bucket refills before the expiry |
| RedisRateLimit.CallUsesOneIff | app/infrastructure/redis_rate_limit.py:26-43 | A call is charged a whole token iff the bucket it should have found was not lost |
| RedisRateLimit.CallAccounts | app/infrastructure/redis_rate_limit.py:26-43 | One call moves the slot forward and accounts for the time between the slots less one token |
| RedisRateLimit.LongQueueIsForgotten | app/infrastructure/redis_rate_limit.py:36-42 | With rate and capacity 1, 62 calls at once reserve up to second 61, and a call at second 60 is let through at once |
| RedisRateLimit.RedisBucket.Acquire | app/infrastructure/redis_rate_limit.py:16-43 | The script stores and returns the reservation that the live bucket allows |
| InMemoryRateLimit.WindowRespectsLimit | app/infrastructure/ratelimit.py:19-26 | Over any calls, tokens stay in [0, burst] and any window of length w is granted at most burst + rate * w |
| InMemoryRateLimit.AcquireWithWait | app/infrastructure/redis_rate_limit.py:60-70 | For a sole caller with exact sleeps it returns True iff the first call is granted or its wait fits the timeout (and the bucket can hold a token), with at most two calls, and never sleeps past the deadline |
| InMemoryRateLimit.InMemoryRateLimiter.Acquire | app/infrastructure/ratelimit.py:19-26 | One call refills up to the burst and takes a token or returns the wait for one |
| InMemoryRateLimit.WaitIsExact | app/infrastructure/ratelimit.py:19-26 | The wait that a refused call returns is exact: the next call is granted iff it comes at least that much later |
| Lock.LeasesAreDisjoint | app/infrastructure/locks.py:46-57 | Of two grants of one key the earlier was given back by its own holder, or its time was up, before the later was made, for any number of workers |
| Lock.GrantedIffNoneInForce | app/infrastructure/locks.py:46-49 | An attempt is granted iff no earlier grant is in force |
| Lock.ReleaseActsOnOwnLease | app/infrastructure/locks.py:14-20 | A release has an effect iff its own token's grant is in force and its object holds the lock; otherwise the store is unchanged |
| Lock.HoldsIff | app/infrastructure/locks.py:30-57 | A lock object believes that it holds the lock iff it was granted the lock, and neither a later attempt of its own was refused nor did it give the lock back since |
| Lock.PollsWithinTtlAreSerialized | app/workers/tasks.py:44-72 | Polls of one auction that end within the lease and release only then do not overlap |
| Lock.OvertakenIff | app/workers/tasks.py:44-72 | Once a grant is made, another worker's grant before its poll ends, without a release, is possible iff the lease ends before the poll does |
| Lock.LongPollIsOvertaken | app/workers/settings.py:32 | A poll of 120 s under the 90 s lease is joined by another |
| Lock.ReacquireForfeitsRelease | app/infrastructure/locks.py:46-53 | A worker whose acquisition is refused, as a holder's is that acquires again, no longer frees the key by releasing it |
| Lock.RedisLock.TryAcquire | app/infrastructure/locks.py:46-49 | The key is set with the token and lifetime iff it is free, and the object knows whether it holds it |
| Lock.RedisLock.Acquire | app/infrastructure/locks.py:34-44 | With nobody else at the key, a blocking call succeeds iff the entry it finds expires by its last try, a plain one iff the key is free |
| Lock.LastTryIsLast | app/infrastructure/locks.py:34-44 | The tries of a blocking call are 0.2 s apart, and the last is the first that is not before the deadline |
| Lock.RedisLock.Release | app/infrastructure/locks.py:51-57 | Only the own live entry is deleted; otherwise False and an unchanged store |
| Extractor.ScannerReturnsShortestBalanced | app/providers/yahoo/extractor.py:49-77 | From an opening brace the scan returns the shortest stretch whose braces outside strings balance, iff there is one of at most MAX_OBJECT_LEN + 1 characters |
| Extractor.ExtractBalancedObject | app/providers/yahoo/extractor.py:49-77 | The loop over position, depth, string and escape state computes that stretch, and None where there is none |
| Extractor.DepthIsBalance | app/providers/yahoo/extractor.py:56-71 | The loop's depth is the number of opening less closing braces outside string literals |
| Extractor.HitsAreTheOccurrences | app/providers/yahoo/extractor.py:34-47 | The search visits every occurrence of a borderless marker exactly once, in order |
| Extractor.MarkersHaveNoBorder | app/providers/yahoo/extractor.py:3 | No proper prefix of a marker is also its suffix, so occurrences cannot overlap |
| Extractor.CandidatesAreBracesOfHits | app/providers/yahoo/extractor.py:32-47 | The candidates are the braces near the hits of pageData, then those near the hits of PageData |
| Extractor.IterCandidates | app/providers/yahoo/extractor.py:32-47 | The generator with its `seen` set terminates and yields those candidates |
| Extractor.Extract | app/providers/yahoo/extractor.py:19-30 | The result is the object of the first candidate that is balanced and parses to an object, whatever the candidates before it are; it is an error iff no candidate is |
| Extractor.FirstObjectIff | app/providers/yahoo/extractor.py:20-29 | Unbalanced candidates, texts that are not JSON and other values do not end the search: both halves of the iff over any list of candidates |
| Extractor.BraceOfIff | app/providers/yahoo/extractor.py:44-46 | A hit leads to the first opening brace among the 200 characters from it, and to none iff there is none there |
| PageData.ObjectIsShortestBalanced | app/providers/yahoo/extractor.py:49-77 | A JSON object serialized under RFC 8259 sections 2, 4 and 7, with any nesting, strings, escapes and whitespace, is the shortest balanced stretch from its brace |
| PageData.ScannerRecoversObject | app/providers/yahoo/extractor.py:49-77 | Between any prefix and suffix the scanner returns exactly that serialization iff it has at most MAX_OBJECT_LEN + 1 characters |
| PageData.ExtractRecovers | app/providers/yahoo/extractor.py:19-47 | A page whose first "pageData" is followed, after at most 191 brace-free characters, by a serialized object gives that object |
| Validation.RecognizeIffMatches | app/domain/validation.py:3-5 | The recognizer accepts exactly the strings the URL pattern matches, with the same captured id |
| Validation.AcceptedIff | app/domain/validation.py:3-27 | A text is accepted iff, without the white space around it, it has at most 2048 characters and is one of the allowed spellings of an auction page, and what is made of it is the one https form of that page; it is too long iff it has more |
| Validation.StripTrims | app/domain/validation.py:17 | Only white space at both ends is removed, and all of it |
| Validation.SpaceIsOneOf | app/domain/validation.py:17 | The characters that count as white space at the ends, one by one |
| Validation.CanonicalFormKeepsId | app/domain/validation.py:12-34 | The canonical form of an accepted URL names the same auction |
| Validation.CanonicalFormIsFixedIff | app/domain/validation.py:17-27 | Canonicalization is idempotent iff the canonical form is at most 2048 characters |
| Validation.LongestUrlIsNotFixed | app/domain/validation.py:17-27 | A URL of 2048 characters whose canonical form is refused |

## Left out

- Telegram handlers, keyboards, list pages and message rendering: user interface; rendering is a parameter that gives some text.
- HTTP fetching, anti-bot detection, the page parser and `json.loads`: a fetch is an arbitrary outcome (a state, a retryable error, a stopping error) and `json.loads` a parameter; an exception of another kind commits nothing and is no event.
- FastAPI routes, metrics, logging, migrations, container wiring, the ARQ queue: plumbing; a queued job may start at any time.
- SQL interleavings inside one transaction: a poll, an add, a remove and a tick are atomic; only the lock and the send job are split.
- `toggle_notifications`, `set_label` and user administration: one event that edits a link; they touch nothing else.
- Surrogate keys of auctions and users: rows are keyed by the external id and the Telegram id, which are unique.
- `raw_data` of snapshots, `index` and timestamp columns that no modelled code reads.
- Time zones and `isoformat`: instants are whole microseconds; a dedup key holds the instant itself.
- Column lengths: `external_id` holds 64 characters and a label 255 (app/models/auction.py:17, app/models/user_auction.py:19); the model's ids are as long as a URL allows, and its labels are not limited.
- Floating point and Lua number formatting: the rate limiters compute over reals.
- Pydantic coercion and the regular expression engine: the URL pattern is given as a relation and recognized directly.
- JSON numbers: over-approximated by the characters a number may have, which is more than RFC 8259 allows.
- The request rate that Yahoo sees: `fetch_html` discards the returned wait (app/providers/yahoo/client.py:42), so the limiter results are about the script's slots only.
- Progress of `acquire_with_wait` over the Redis script: each refused call reserves another slot.
- Overlapping fetches of one auction that commit in the opposite order: an observation is taken not to be older than the previous poll of its auction (`Runs.Enabled`), which the poll lock is there for.
- The purge's daily schedule in Redis: a purge is an event that may come at any time with any cutoff.
- The tick lock and queue-size gauge of the scheduler: ticks are events of their own, so overlapping ticks are among the runs.
- Details.RowShowsLastChange: purges of an auction's latest snapshot are excluded; with them `Details.RowShowsLastStored` holds.
- Lifecycle.GraceIsKept: polls during the grace period are excluded, because a poll that is already queued rewrites the due time.
- ErrorStreaks.GivesUpNoSooner: polls that no tick enqueued since the poll before are excluded, because a job left over in the queue may poll early; so is an unwatch whose grace period ends before the backoff, which the shipped settings (600 s against at most 240 s within a streak) rule out.
- Timeliness.PollsAreFew: the same polls and unwatches are excluded; a page is taken to be observed after the tick that enqueued its poll.
- Timeliness.NoticeIsOnTime: purges of the auction's latest snapshot are excluded, after which nothing is decided until the next observation; the delay of the observations is given, since nothing bounds how long a job waits in the queue.
- Delivery.PendingRowIsRecovered: rows created at the same instant may be listed in any order, so the two bounds coincide only without ties.
- Lock.RedisLock.Acquire: the retry loop is described without interference; interleaved attempts of other workers are the subject of the lemmas about whole runs.
- InMemoryRateLimit.AcquireWithWait: a sole caller with exact sleeps, as the waits of several callers depend on their order.
