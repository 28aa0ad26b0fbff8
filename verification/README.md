# A verified model of the forwarding engine

The backend copies messages from Telegram channels to target chats. Most of its difficulty is not in the
calls it makes but in the small state machines around them: a queue of comments that is edited while it is
being sent, a scheduler that hands out tokens by time of day, a history loop that must survive being cut
off anywhere, caches that must agree with something simpler, run ids that keep stale workers out. This
project models those state machines in Dafny 4.11 and proves what they are for.

`dafny verify dfyconfig.toml` checks everything. Objects that the engine updates in place are classes whose
methods are proved against functions on values; whole-run statements are lemmas about those functions over
every sequence of events. Networks, databases and clocks are oracles: a server answers anything its contract
allows, one SQL statement is one atomic step, time is an integer.

| file | what it models |
|---|---|
| `SlotTime.dfy` | rules by time of day: active windows, their ends, next starts, slot keys |
| `Scheduler.dfy`, `SchedulerRuns.dfy` | reserving, committing and releasing tokens; whole runs of the ticket protocol |
| `RuntimeWorker.dfy` | the real-time worker that is the scheduler's and the quota's client |
| `CommentRow.dfy`, `CommentState.dfy` | rows of the comment queue, and the actions of producer, consumer and edit workers on them |
| `CommentSteps.dfy`, `CommentProtocol.dfy` | what each of these actions keeps, and what every interleaving keeps |
| `CommentRaces.dfy` | exactly when an edit is lost, and the runs that lose one or send twice |
| `CommentBatch.dfy` | what one batch of a consumer pass reads |
| `CommentScan.dfy` | one consumer pass: batches, albums, commits |
| `CommentFetch.dfy` | paging through the replies of a discussion root |
| `History.dfy` | cloning a history from old to new, and resuming it |
| `Dedup.dfy`, `Grouper.dfy` | the recent-message cache and the debouncing album grouper |
| `ReplyMapping.dfy` | the reply mapping behind its least-recently-used cache |
| `LogRing.dfy`, `LogMerge.dfy` | the log ring buffer with its polling clients, and the client-side log cache |
| `Quota.dfy`, `Fencing.dfy` | the daily quota, and run ids as fencing tokens |
| `MediaPlan.dfy` | what is sent of a media group |
| `Options.dfy`, `Ascending.dfy` | optional values; ascending id lists |

## What turned out false

Nine promises do not hold as a reader would expect. Each has a concrete run, and a theorem that says exactly
when the promise holds.

* **An edit can be lost**, in either of the two ways its SELECT (internal/engine/comment.go:512-517) can miss. If
  it finds the row pending, because the history fetch has just queued it, the edit rewrites the payload without
  checking again; a send and commit in between leave the old text (`CommentRaces.EditBeforeInsertIsLost`). If
  it finds no row, the edit is dropped, and the history fetch may still queue the text it read before
  (`CommentRaces.EditWithoutRowIsLost`). An edit whose first UPDATE found nothing can be lost if and only if
  its SELECT finds no row, or a pending one that does not show the new text
  (`CommentRaces.EditCanBeLostExactlyWhenNotSettled`); blank texts are never pushed. If every edit finds its
  comment queued, all interleavings converge.
* **A delivery can be missing from the daily quota.** The slot is charged in memory whatever happens, but the
  quota is not once the task has been cancelled (internal/engine/quota.go:280): a stop during a send leaves the
  quota one unit short (`RuntimeWorker.CutOffDeliveryIsNotRecorded`). The two ledgers agree if and only if no
  delivery that costs a unit is cancelled before its record, and differ by the last job at most
  (`RuntimeWorker.LedgersAgreeUnlessCutOff`).
* **A slot's quota can be exceeded by an interruption.** When one window interrupts another, coming back starts
  a fresh count under the old key (`SchedulerRuns.NestedWindowsExceedLimit`). Whether rules ever do that can be
  read off the minutes of two days (`SlotTime.UninterruptedByMinutes`).
* **A slot's quota can be exceeded by a stop.** A commit counts in memory whatever happens, but its row is not
  written once the task has been cancelled (internal/engine/scheduler.go:819-832), and the next refresh, start or
  restart takes the old count over and grants the units again; one window is enough
  (`SchedulerRuns.CutOffExceedsLimit`). Exactly the units the row lags behind are forgotten, at a re-read and at
  nothing else (`SchedulerRuns.ForgetsExactlyTheLag`), and without interruptions the commits under a key exceed
  its limit at most by what was forgotten of it (`SchedulerRuns.WholeRunQuota`), and can reach that
  (`SchedulerRuns.ForgottenUnitsAreGrantedAgain`). The limit holds over all runs that forget nothing if and only
  if no slot is interrupted and resumed, and over all runs only if there is never a slot
  (`SchedulerRuns.QuotaHoldsExactlyWhen`).
* **Message 1 alone is never cloned.** With the upper bound 1 the entry check ends the loop before its first
  request (`History.FirstMessageAloneIsMissed`). Every other run that is not stopped does all it should.
* **Log polling can skip events** if more of them arrive between two polls than the ring holds
  (`LogRing.SlowPollMissesAnEvent`), and, while a client has no last id because it found the ring empty, than fit
  on its page (`LogRing.EmptyStartMissesAnEvent`). A client misses nothing, from the very first event or from any
  id on, if and only if at each poll what it has not seen is within that reach.
* **A comment can stand at the target twice** if the target took it although the send was reported as failed
  (`CommentRaces.FailedSendIsRepeated`). A comment has exactly one message there for each successful send,
  of which there is at most one, and one for each such failure (`CommentProtocol.SentAtMostOnce`).
* **Lines can be lost in the log cache.** Repeated lines are (`LogMerge.RepeatedLineIsLost`) exactly when two
  windows overlap further than they should. And a merge that differs from the cached window is dropped
  (`LogMerge.NewLinesCanLookSame`) exactly when the cache is full, the incoming lines end like it, and its end is
  not theirs (`LogMerge.NewLinesAreDroppedExactlyWhen`).
* **A caption can be lost** when it is on a filtered file and the first remaining file has a text of its own
  (`MediaPlan.VideoCaptionIsLost`).

## Model

| member | source | states |
|---|---|---|
| CommentProtocol.NextKeepsInvariant | internal/engine/comment_pending_send.go:251-287 | every step of producer, consumer and edit workers keeps: a row has a target only with success, the target mirrors that row, a comment is sent at most once, and a mirrored comment shows its newest text or an edit of it is owed, unless its last edit raced |
| CommentProtocol.StatusIsFinal | internal/engine/comment_pending_send.go:251-287 | no single step takes a row away or changes a success, a failure or their target |
| CommentProtocol.RacesAreExact | internal/engine/comment.go:505-524 | an edit event that finds its comment queued clears the mark of an earlier race; a SELECT that finds no row or a pending one sets it, and nothing else does |
| CommentProtocol.EditsAreQueued | internal/engine/comment.go:519-524 | an edit is queued exactly by a producer that found the row successful with a target and by a consumer whose compare-and-set missed, and leaves the queue exactly when a worker takes it |
| CommentProtocol.EditShowsTheRow | internal/engine/comment_edit_worker.go:39-92 | a worker brings the target to the text of the row if the row is successful with a target and its text is more than white space, and otherwise changes nothing |
| CommentProtocol.StatusStaysFinal | internal/engine/comment_pending_send.go:251-287 | over every interleaving, a settled row keeps its status and target for good |
| CommentProtocol.SentAtMostOnce | internal/engine/comment_pending_send.go:972-1008 | over every interleaving, each comment is sent successfully at most once, and stands at the target once for that and once for each send that was taken there but reported as failed; targets come only with success, and no two rows share one |
| CommentRaces.FailedSendIsRepeated | internal/engine/comment_pending_send.go:972-995 | a concrete run in which a send that was reported as failed is repeated |
| CommentProtocol.ConvergesWhenQuiet | internal/engine/comment_edit_worker.go:39-92 | once nothing is in progress, every mirrored comment shows the text of its last edit event, or the one it was queued with, unless that text is blank or the last edit found the row missing or pending at its SELECT |
| CommentRaces.KnownRowsConverge | internal/engine/comment.go:505-524 | if every edit event finds its comment queued, no interleaving loses an edit |
| CommentRaces.PendingSelectLosesEdit | internal/engine/comment.go:512-524 | an edit that selected its row as pending can end with the old text mirrored and nobody left to correct it |
| CommentRaces.DroppedSelectLosesEdit | internal/engine/comment.go:514-517 | an edit that found no row can end with an older text queued and mirrored and nobody left to correct it |
| CommentRaces.EditCanBeLostExactlyWhenNotSettled | internal/engine/comment.go:505-524 | an edit about to do its SELECT can still be lost if and only if its text is not blank and the SELECT finds no row, or a pending one that does not show the text |
| CommentRaces.EditBeforeInsertIsLost | internal/engine/comment.go:463-524 | a concrete run from the empty queue that loses an edit whose SELECT said pending |
| CommentRaces.EditWithoutRowIsLost | internal/engine/producer.go:255-269 | a concrete run that loses an edit whose SELECT found no row |
| CommentScan.CommentQueue.MarkFailed | internal/engine/comment_pending_send.go:251-259 | exactly the pending rows of the root among the ids fail; nothing else changes |
| CommentScan.CommentQueue.MarkSuccessWithCAS | internal/engine/comment_pending_send.go:261-287 | a pending row is committed with its target whatever its version, keeping its payload; the answer says whether it was still the version that was read |
| CommentScan.CommentQueue.Settle | internal/engine/comment_pending_send.go:1002-1008 | an accepted send leaves the row successful under its target with the newest text and nothing else changed, and an edit is owed exactly if one landed on the way |
| CommentScan.CommentQueue.SendSingle | internal/engine/comment_pending_send.go:957-1011 | what becomes of a comment outside albums for each payload and outcome |
| CommentScan.CommentQueue.Triage | internal/engine/comment_pending_send.go:588-617 | splits an album into the readable and the given-up comments, and says whether it can go out as one |
| CommentScan.CommentQueue.CaptionIndex | internal/engine/comment_pending_send.go:627-636 | the first comment with a text, else the first |
| CommentScan.CommentQueue.SettleAlbum | internal/engine/comment_pending_send.go:874-894 | an accepted album is committed row by row: the k-th comment under the k-th id, if the target gave an id for each, and left pending where that id is 0; if the numbers differ, every comment is successful and none has a target |
| CommentScan.AcceptedIsMapped | internal/engine/comment_pending_send.go:874-894 | the comments of an album that went out as one and was accepted stand under their own ids, in order, or under none if the numbers differ |
| CommentScan.CommentQueue.SendEach | internal/engine/comment_pending_send.go:909-952 | an album that cannot go out as one is sent comment by comment up to the first cancellation or flood wait; each before it is settled by its outcome, each from there on is left as it was |
| CommentScan.CommentQueue.SendAlbum | internal/engine/comment_pending_send.go:583-955 | what becomes of every comment of an album: given up as unreadable or for the caption, committed each under its own id once the album is accepted, left alone by a flood wait, or sent on its own as far as the album got; it stops exactly at a flood wait for the album or among those sent on their own |
| CommentScan.CommentQueue.CompleteAlbum | internal/engine/comment_pending_send.go:533-556 | the loop that extends a page appends exactly the rest of its last album |
| CommentScan.CommentQueue.ReadBatch | internal/engine/comment_pending_send.go:513-556 | a batch holds everything pending up to the end of its page and beyond it exactly the rest of the last album; it is empty only if nothing is left |
| CommentScan.CommentQueue.GroupEnd | internal/engine/comment_pending_send.go:570-581 | a group is one comment, or the longest run of one album |
| CommentScan.CommentQueue.SendBatch | internal/engine/comment_pending_send.go:558-1013 | a batch is sent in whole groups from its beginning on, each meeting its fate; it ends at the first group it is cancelled before or stopped in, and otherwise with all of it |
| CommentScan.CommentQueue.SendPending | internal/engine/comment_pending_send.go:507-1020 | a pass ends; it works in whole groups and strictly ascending order on pending comments and touches no other row; every comment of a group meets the fate its payload, caption and answers decide, those of an accepted album each under its own id, and the edit of exactly the mirrored ones that changed on the way is owed; it ends early exactly at the first cancellation or flood wait it meets; up to there it leaves out only comments that interrupt an album, and when albums are contiguous it takes a first part of the queue, all of it unless stopped, and cuts no album |
| CommentBatch.BatchIdsIsBatch | internal/engine/comment_pending_send.go:513-556 | the page and its extension hold what a batch has to |
| CommentBatch.BatchCoversIff | internal/engine/comment_pending_send.go:513-556 | the cursor skips no comment over a batch if and only if none of another album stands between the end of the page and the end of its album |
| CommentBatch.BatchIsWhole | internal/engine/comment_pending_send.go:533-556 | with contiguous albums a batch skips nothing and no album lies on both sides of its end |
| SlotTime.EndTimeIsFirstExit | internal/engine/scheduler.go:89-117 | the end of an active window is the first instant from now at which the rule is left, across midnight or not |
| SlotTime.AllDayEndsAtMidnight | internal/engine/scheduler.go:100-117 | an all-day rule ends at the next midnight |
| SlotTime.WindowGoesRound | internal/engine/scheduler.go:89-98 | a rule is active in the minutes of the clock face that are reached from its start before its end, across midnight or not |
| SlotTime.NextStartIsFirstEntry | internal/engine/scheduler.go:119-138 | the next start of an inactive rule is the first instant at which it is active |
| SlotTime.NextStartIsABeginning | internal/engine/scheduler.go:119-138 | active or not, the next start is the next time the rule's first minute begins, or, in the part of an active window after its midnight, the one a day later; all day it is now |
| SlotTime.SameKeyIffSameEnd | internal/engine/scheduler.go:856-870 | two active instants of a rule share a slot key if and only if they share an end |
| SlotTime.KeyIsConvex | internal/engine/scheduler.go:856-870 | between two instants with one key the rule is never left |
| SlotTime.KeyNamesTheStart | internal/engine/scheduler.go:856-870 | the key of an active rule names the minute its activation began in, and from there on the rule was not left |
| SlotTime.KeyDeterminesSlot | internal/engine/scheduler.go:856-870 | one key always stands for one rule, end and limit |
| SlotTime.ActiveSlotIsFirstToEnd | internal/engine/scheduler.go:140-160 | the active slot is the enabled rule that ends first, the earliest listed on a tie, and exists exactly if one is active |
| SlotTime.PickActiveSlot | internal/engine/scheduler.go:140-160 | the loop picks that slot |
| SlotTime.FindNextSlotStart | internal/engine/scheduler.go:162-179 | the loop finds the least next start of the enabled rules |
| SlotTime.NextSlotStartIsEarliest | internal/engine/scheduler.go:162-179 | when no slot is active the hint is the earliest instant at which one is; there is none exactly if no rule is enabled |
| SlotTime.UninterruptedByMinutes | internal/engine/scheduler.go:140-160 | no slot is ever interrupted and resumed if and only if none is within the minutes of two days |
| Scheduler.PeekAgreesWithReserve | internal/engine/scheduler.go:484-569 | at one instant a look tells exactly what a reservation gets, a refusal is followed by a refusal with the same hint, and looking first leaves the same state |
| Scheduler.ReserveGrantsWhatIsLeft | internal/engine/scheduler.go:518-569 | inside a slot a reservation grants the lesser of what is asked and what limit, use and reservations leave; a slot under another key begins unused; and while tokens are out in another slot nothing changes |
| Scheduler.ReserveOutsideSlots | internal/engine/scheduler.go:505-516 | outside every slot everything is granted if no rule is enabled, and nothing otherwise, with the next start as hint |
| Scheduler.GrantsAreSettled | internal/engine/scheduler.go:789-854 | giving a grant back restores the reserved tokens; committing it does too and counts it as use, in the row as well if that is written |
| Scheduler.SettlingIsBounded | internal/engine/scheduler.go:789-854 | a commit or release frees what it names and never more than is out; only a commit counts as use |
| Scheduler.RowIsTakenOver | internal/engine/scheduler.go:453-480 | a row is taken over whole, or not at all when it names another key while tokens are out |
| Scheduler.TaskSchedule.ReservePull | internal/engine/scheduler.go:484-569 | enters the active slot unless tokens are out in another, and grants what is left of it, at most what is asked |
| Scheduler.TaskSchedule.PeekPull | internal/engine/scheduler.go:669-740 | reports what a reservation would get and enters the slot like one |
| Scheduler.TaskSchedule.ComputeNextRun | internal/engine/scheduler.go:575-630 | enters slots like a reservation, and whenever it names a next run a reservation now gets nothing |
| Scheduler.TaskSchedule.CommitPull | internal/engine/scheduler.go:789-834 | moves units from reserved to used under the current key, in memory always and in the row unless the task is cancelled |
| Scheduler.TaskSchedule.ReleasePull | internal/engine/scheduler.go:836-854 | gives units back, never below zero |
| Scheduler.TaskSchedule.SyncPersistedState | internal/engine/scheduler.go:453-482 | takes the row's counters over unless tokens are out under another key |
| Scheduler.SchedulerEngine.ApplyRules | internal/engine/scheduler.go:418-451 | other rules, or rules of another user or strategy, drop every counter of their task and no other; the same ones change nothing |
| SchedulerRuns.TicketProtocol | internal/engine/scheduler.go:484-569 | over every run, cut-off row writes and re-reads included, reserved is the sum of the tickets out, each was taken in the slot the schedule is still in, and use and reservations stay within its limit |
| SchedulerRuns.TicketSettlesWhereTaken | internal/engine/scheduler.go:789-854 | whenever a ticket is settled, it is settled under the key it was taken in, moving or freeing exactly its units; a commit that is cut off leaves the row as it was |
| SchedulerRuns.LedgerCountsCommits | internal/engine/scheduler.go:789-834 | over every run, what stands committed under a key is the sum of the tickets of that key that were committed |
| SchedulerRuns.WholeRunQuota | internal/engine/scheduler.go:453-482 | if no slot is interrupted, what is ever committed under a key stays within its limit and what a re-read of the row has made the schedule forget of it, late commits, cut-off row writes, refreshes, starts and restarts included |
| SchedulerRuns.DisjointWindowsKeepQuota | internal/engine/scheduler.go:518-562 | pairwise disjoint windows are enough for that |
| SchedulerRuns.ForgetsExactlyTheLag | internal/engine/scheduler.go:808-832 | only a commit that is cut off makes the row lag behind, and units are forgotten exactly when the row is re-read while it lags: all it lags by |
| SchedulerRuns.WrittenCommitsAreKept | internal/engine/scheduler.go:819-832 | over every run without a cut-off commit nothing is forgotten |
| SchedulerRuns.ForgottenUnitsAreGrantedAgain | internal/engine/scheduler.go:453-482 | in a slot that still runs the commits can be brought exactly to its limit and what was forgotten |
| SchedulerRuns.QuotaHoldsExactlyWhen | internal/engine/scheduler.go:484-569 | the limit per key holds over all runs that forget nothing if and only if no slot is interrupted and resumed, and over all runs if and only if there is never a slot at all |
| SchedulerRuns.NestedWindowsExceedLimit | internal/engine/scheduler.go:518-562 | a run with two nested windows that forwards two messages under a key with one token |
| SchedulerRuns.CutOffExceedsLimit | internal/engine/scheduler.go:808-832 | in any slot of a schedule that interrupts none, a commit that is cut off and a start of the task after it let twice its limit be committed under its key |
| RuntimeWorker.PlannedJobsAreWellFormed | internal/engine/monitor.go:716-717 | every message and album is planned as a job that costs at most one unit, and none if it sends nothing |
| RuntimeWorker.RuntimeTask.WaitQuota | internal/engine/monitor.go:555-569 | ends at the first reading that is cancelled or leaves room for the units, and goes on unless it is cancelled, keeping the quota's protocol |
| RuntimeWorker.RuntimeTask.ReserveSchedule | internal/engine/monitor.go:592-617 | tries at every reading until tokens are granted or the task is cancelled; returns with one ticket out that holds exactly what was granted, and with none if and only if cancelled |
| RuntimeWorker.RuntimeTask.WaitScheduleWindow | internal/engine/monitor.go:571-590 | ends at the first reading that is cancelled, inside a slot, or without any slot to come, and goes on unless cancelled |
| RuntimeWorker.RuntimeTask.Settle | internal/engine/monitor.go:763-769 | commits or releases exactly the ticket out; the commit reaches the row unless the task is cancelled |
| RuntimeWorker.RuntimeTask.ProcessJob | internal/engine/monitor.go:648-969 | a job leaves the worker exactly where its waits, its outcome and a stop put it: no token stays out, the scheduler gets the units of a delivery, and the quota the same unless the task was cancelled by the end of the send; the cursor never moves back, and moves to the id of the job exactly if that is greater and the job was finished |
| RuntimeWorker.JobWaitsItsTurn | internal/engine/monitor.go:555-617 | a job that sends something goes ahead only after a reading at which the quota allowed its units, and is sent at a reading at which the slot granted its tokens, or is open if it costs none |
| RuntimeWorker.RuntimeTask.RunQueue | internal/engine/monitor.go:619-972 | through any queue, clock, outcomes and stop the worker ends exactly where its jobs put it one after the other, with all of them done unless cancelled; all tokens settled, the slots given one unit for each finished job that was delivered at a cost, the quota given one for each record not cut off, the cursor, which never moves back, at least at the id of every finished job and either where it was or at one of them, no date over the daily limit, and, if slots are not interrupted, no slot key over its limit and what had been forgotten of it before; the worker forgets nothing |
| RuntimeWorker.CursorIsGreatest | internal/engine/monitor.go:335-341 | moving the cursor only forward leaves it at the greatest of where it was and the ids of the jobs |
| RuntimeWorker.LedgersAgreeUnlessCutOff | internal/engine/quota.go:279-302 | over any queue the quota has at most the units delivered, less by no more than the last job's, and as many if and only if no record of a delivery that costs a unit was cancelled |
| RuntimeWorker.CutOffDeliveryIsNotRecorded | internal/engine/monitor.go:763-773 | a concrete run in which a message uses up a slot's token and is missing from the daily quota and from the task row |
| Quota.AlbumCountsAsOne | internal/engine/quota.go:404-434 | an album of one costs what its message costs alone, no album costs more than its messages would one by one, and it costs a unit exactly if each of them would |
| Quota.UnitsForBatch | internal/engine/quota.go:418-434 | the loop over the replies finds that an album costs one unit exactly if it can be sent and none of its messages is a reply that keeps its target |
| Quota.WindowGoesRound | internal/engine/quota.go:97-107 | a run window holds the minutes of the clock face that are reached from its start before its end |
| Quota.AllowedMeans | internal/engine/quota.go:229-265 | a worker may go ahead exactly inside its window and with the units within what is left of the limit on that date |
| Quota.TaskQuota.WaitForQuota | internal/engine/quota.go:209-277 | ends at the first reading that is cancelled, or inside the window with the count of its date and the units within the limit, and at no other; a new date starts at zero; the pause that shows is that of the last refusal, and goes with the first grant but for free messages on a spent day |
| Quota.TaskQuota.QuotaAdd | internal/engine/quota.go:279-302 | adds under the date of the reading, in memory and in the row; nothing once the task is cancelled |
| Quota.StepCountsRight | internal/engine/quota.go:209-302 | every wait, look, record and restart keeps the counter equal to what was recorded on its date, with room for what was granted |
| Quota.LimitHoldsPerDate | internal/engine/quota.go:209-302 | over every run, even with midnight between wait and record, no date gets more than the limit beyond what it began with |
| Quota.LimitHolds | internal/engine/quota.go:209-302 | from a counter within its limit, no date ever exceeds it |
| History.HistoryTask.PersistCursorAndMax | internal/engine/history.go:1829-1844 | sets the cursor and never lowers the maximum |
| History.HistoryTask.GatherAlbum | internal/engine/history.go:905-933 | gathers exactly the eligible messages of a maximal run of one album |
| History.HistoryTask.SendPage | internal/engine/history.go:879-1196 | works through the eligible messages of a page in order, each once; the cursor follows; it is stopped only before a message or on one message or album, which is left in flight |
| History.HistoryTask.CloneOldToNew | internal/engine/history.go:804-1203 | against any server that returns a first part of what is asked, the run ends; in ascending order it processes messages beyond the cursor and between the bounds, both included, passes none over, and ends on the last; if it ends by itself it has done all of them, or as many as it should, but for message 1 asked for alone; each was in a message or album that was sent or passed over; and a run that is stopped was stopped right where it ended: on the message or album in flight, at the next request, or before the next message of the page; what was in flight has been delivered exactly if its stop says so |
| History.LegalMeans | internal/engine/history.go:804-903 | what runs may do, in terms of ids alone: between the bounds, both included, ascending, without a gap, and complete unless stopped, limited or asked for message 1 alone |
| History.CompleteExactlyUnlessFirstIsAll | internal/engine/history.go:808-825 | a run that is not stopped does everything expected, the first N with a limit of N, if and only if it is not the case that only message 1 is asked for and it exists |
| History.FirstMessageAloneIsMissed | internal/engine/history.go:808-825 | with the range 1-1 message 1 is never cloned |
| History.ResumeLosesNothing | internal/engine/history.go:1052-1055 | over any sequence of runs cut anywhere, together they process in order and each once exactly the wanted messages up to the cursor, and all of them once a run ends by itself |
| History.CursorNeverMovesBack | internal/engine/history.go:1829-1844 | the persisted cursor never moves back over any sequence of runs |
| History.OnlyInFlightIsSentAgain | internal/engine/history.go:1127-1189 | a message at or below the cursor is never processed or sent again, and one sent twice was in the message or album a run was stopped on |
| Dedup.Deduper.PruneLocked | internal/engine/dedup.go:103-120 | drops exactly the expired marks; the queue is compacted exactly when more than 2048 and more than half of it has been passed, and loses nothing by it |
| Dedup.Deduper.EvictLocked | internal/engine/dedup.go:122-136 | beyond the capacity gives up exactly one mark, one that would have expired first |
| Dedup.Deduper.Seen | internal/engine/dedup.go:46-71 | answers whether the key is marked and alive; the new map is the live marks, plus the key if it was not seen, minus at most that one victim; the capacity is kept and every mark stays backed by the queue |
| Dedup.SeenMeans | internal/engine/dedup.go:46-71 | after a call its key expires a ttl later unless it was marked still, and every other live mark stays as it was, but for a victim that expires no later than the rest |
| Dedup.Deduper.DropTask | internal/engine/dedup.go:73-85 | drops exactly the marks of the task |
| Dedup.Deduper.Forget | internal/engine/dedup.go:89-101 | drops exactly the key |
| Dedup.SeenExactlyWhenMarked | internal/engine/dedup.go:46-136 | over every run a call sees a key if and only if it was marked within the ttl and not forgotten, dropped or evicted since |
| Grouper.EnterKeepsInvariant | internal/engine/grouper.go:40-80 | adding keeps every message in one place, groups free of duplicates, and a timer on its way for each |
| Grouper.RunKeepsInvariant | internal/engine/grouper.go:40-144 | over every run each group holds something and a timer carrying its id is on its way, and the ended and pending groups make up what was accepted |
| Grouper.EveryMessageIsInOnePlace | internal/engine/grouper.go:40-144 | over every interleaving with stale timers, the messages accepted for an album are, in order and each once, those of its ended groups followed by those pending |
| Grouper.OnlyDuplicatesAreTurnedAway | internal/engine/grouper.go:40-68 | a message is accepted unless its album holds one with the same id already, and then nothing happens |
| Grouper.EveryMessageIsTaken | internal/engine/grouper.go:40-144 | over every run, every message added was accepted into its album, itself or with the same id |
| Grouper.QuietMeansEmpty | internal/engine/grouper.go:82-99 | once no timer is left to fire nothing is pending |
| Grouper.StaleTimersFlushNothing | internal/engine/grouper.go:82-99 | a timer ends a group exactly if it is the last one set for it; any other changes nothing |
| Grouper.ArrivalPostponesTheEnd | internal/engine/grouper.go:59-80 | a further message gets its album a timer of its own; the earlier one is gone, or no longer ends the album if it escaped being stopped |
| Grouper.CloseStopsTheTimer | internal/engine/grouper.go:101-144 | flushing or dropping an album ends it with all its messages and leaves no timer of its own behind, unless that escaped being stopped |
| Grouper.AlbumGrouper.Add | internal/engine/grouper.go:40-80 | a message without album is flushed at once; one whose id is pending in its album changes nothing; any other is appended to its group, sets its timer anew and touches no other group |
| Grouper.AlbumGrouper.Fire | internal/engine/grouper.go:82-99 | flushes the whole group in order if the timer is its own, else nothing |
| Grouper.AlbumGrouper.FlushTask | internal/engine/grouper.go:101-126 | hands out every group of the task, each whole and once, and touches no other task |
| Grouper.AlbumGrouper.DropTask | internal/engine/grouper.go:128-144 | drops every group of the task and no other |
| CommentFetch.TakePage | internal/engine/comment_fetch.go:106-125 | takes over the new valid messages of a page while there is room, and finds the least valid id |
| CommentFetch.FetchRepliesByRoot | internal/engine/comment_fetch.go:22-155 | with finitely many flood waits the fetch ends after a bounded number of requests; offsets strictly decrease; the result is strictly ordered by date and id, at most as many as asked for, 200 if no number is given, with distinct positive ids other than the root, each one served; from an honest server it is exactly the newest comments, and all of them if there is room; the first page is asked for in full and no page for more; it fails only if cancelled or refused beyond its fallback and its retries, and goes on after no other refusal |
| CommentFetch.AllFit | internal/engine/comment_fetch.go:36-55 | of the newest comments, none is missing when there is room for all |
| CommentFetch.UsePage | internal/engine/comment_fetch.go:98-142 | after a successful answer either the offset is strictly lower and something was added, or the result is complete |
| CommentFetch.HonestPage | internal/engine/comment_fetch.go:106-142 | an honest page is taken over whole, moves the offset down, and leaves no gap |
| CommentFetch.SortReplies | internal/engine/comment_fetch.go:149-154 | sorting orders the replies strictly by date and id and keeps exactly the same ones |
| ReplyMapping.BringThenTake | internal/engine/msg_mapping_cache.go:50-81 | keeping only the first cap keys commutes with using a key, so the cache is always the first cap of the full recency list |
| ReplyMapping.MsgMappingCache.Get | internal/engine/msg_mapping_cache.go:32-48 | finds a key exactly if it is cached, and makes it the most recently used |
| ReplyMapping.MsgMappingCache.Put | internal/engine/msg_mapping_cache.go:50-81 | the key becomes the most recently used with its new target, and beyond the capacity the least recently used one goes; map and list agree |
| ReplyMapping.TaskMappings.LookupTargetMsgID | internal/engine/keep_reply.go:133-159 | returns the last stored target of a source id, whatever has been evicted |
| ReplyMapping.TaskMappings.StoreMsgMapping | internal/engine/keep_reply.go:161-193 | appends one pair to what was stored, or nothing if the task keeps no replies or an id is missing |
| ReplyMapping.TaskMappings.StoreMsgMappingsInOrder | internal/engine/keep_reply.go:195-264 | stores what a batch became, album or not, and nothing when the numbers differ |
| ReplyMapping.TaskMappings.ClearCache | internal/engine/keep_reply.go:38-43 | forgetting the cache changes no lookup |
| ReplyMapping.DetectAlbum | internal/engine/keep_reply.go:203-222 | finds the album exactly if all messages with an id are of one |
| ReplyMapping.AlbumMapsToFirst | internal/engine/keep_reply.go:238-249 | after an album every one of its messages maps to the least positive id it became |
| ReplyMapping.BatchMapsInOrder | internal/engine/keep_reply.go:235-264 | after separate messages the k-th oldest maps to the k-th oldest of what they became |
| ReplyMapping.NothingIsGuessed | internal/engine/keep_reply.go:224-263 | a batch maps only its own messages, to what they became, and separate messages only if there is one for each |
| LogRing.Ring.Push | internal/global/stats.go:100-116 | the buffer holds exactly the last cap events pushed |
| LogRing.Ring.Snapshot | internal/global/stats.go:117-159 | returns the newest page on a first visit, else the first newer events, 50 of them by default and never more than 200 |
| LogRing.PageMeans | internal/global/stats.go:117-159 | a page is a stretch of the last cap events: the newest ones, or the first ones beyond the id, as many as asked for, 50 if no number is given, and at most 200 |
| LogRing.PollingIsCompleteExactlyWhenItKeepsUp | internal/global/stats.go:117-159 | over every run and from every last id, 0 included, polling yields each newer event once and in order if and only if at every poll what is unseen is still retained and, while there is no last id, fits on the page |
| LogRing.NewestPageThenAllThatFollows | internal/global/stats.go:133-143 | a client that begins with 0 and finds events gets the newest page, and misses no event after it if and only if it keeps up from then on |
| LogRing.SlowPollMissesAnEvent | internal/global/stats.go:100-116 | a concrete run in which a client gets the second of two events and never the first |
| LogRing.EmptyStartMissesAnEvent | internal/global/stats.go:133-143 | a concrete run of a client that finds the ring empty, and then more events than fit on its page |
| Fencing.SupersededRunChangesNothing | internal/engine/worker.go:388-524 | erasing every call of a superseded run from any future leads to the same counters, status, completion, logs and contexts |
| Fencing.AtMostOneRunIsLive | internal/engine/dispatcher.go:92-268 | in every run of the manager, a task has at most one run whose context is not cancelled, and it is the current one |
| Fencing.WorkerCancelsOnlyItself | internal/engine/worker.go:459-492 | a worker's call never cancels another run |
| Fencing.CountersStaySane | internal/engine/worker.go:388-436 | whatever workers report, no counter goes below zero and no log over its limit |
| Fencing.CountersAddUp | internal/engine/worker.go:388-436 | between starts and resets, over every run, each counter is what it was and the sum of its own deltas reported by the runs that were current |
| Fencing.LogHoldsTheNewest | internal/engine/worker.go:388-457 | between starts and resets, over every run, the log of a task holds the newest 200 of all lines written to it |
| Fencing.CallsKeepToTheirPart | internal/engine/worker.go:388-524 | a report changes counters and log, a detail the log, a total the total, a status the status, a completion that and the completion; nothing else of the task, and no other task |
| Fencing.StartTakesOver | internal/engine/dispatcher.go:92-132 | a start begins the next run with the greater of each counter and what was persisted of it, or with nothing but the total if the task had completed and is stopped |
| Fencing.FirstStartTakesOver | internal/engine/dispatcher.go:376-412 | the first start of a task begins run 1 with what was persisted of it |
| Fencing.RestartForgets | internal/engine/dispatcher.go:155-178 | a restart leaves nothing of counters, log and completion but what is persisted, two runs later |
| Fencing.HaltKeepsProgress | internal/engine/dispatcher.go:180-268 | a pause or stop supersedes the run and sets the status, and keeps counters and completion |
| Fencing.TaskManager.StartTask | internal/engine/dispatcher.go:92-151 | cancels the run before, begins the next one, and starts over if the task had completed |
| Fencing.TaskManager.RestartTask | internal/engine/dispatcher.go:155-178 | stop, reset and start, ending with a run at least two ids later |
| Fencing.TaskManager.PauseTask | internal/engine/dispatcher.go:180-223 | supersedes and cancels the current run |
| Fencing.TaskManager.StopTask | internal/engine/dispatcher.go:225-268 | supersedes and cancels the current run |
| Fencing.TaskManager.Shutdown | internal/engine/dispatcher.go:270-292 | cancels the live run of every task and begins none |
| Fencing.TaskManager.IsActiveRun | internal/engine/worker.go:356-366 | a begun run is active exactly if it is not cancelled |
| Fencing.TaskManager.RecordEx | internal/engine/worker.go:388-436 | for the current run each counter moves by its own delta, and to zero if that would take it below; any other run changes nothing |
| Fencing.TaskManager.RecordDetail | internal/engine/worker.go:440-457 | logs for the current run only |
| Fencing.TaskManager.MarkCompleted | internal/engine/worker.go:459-492 | completes the current run only, stopping it if asked |
| Fencing.TaskManager.SetStateStatus | internal/engine/worker.go:509-524 | sets the status for the current run only |
| Fencing.TaskManager.SetStateTotal | internal/engine/dispatcher.go:462-478 | sets the total for the current run only |
| LogMerge.MergeLines | frontend/src/composables/useTaskLogCache.ts:61-86 | the last maxLines of the shortest list that begins with the existing and ends with the incoming lines; without incoming lines the existing ones untrimmed |
| LogMerge.ShortestMergeIsUnique | frontend/src/composables/useTaskLogCache.ts:61-86 | there is only one such list |
| LogMerge.WindowsMergeExactly | frontend/src/composables/useTaskLogCache.ts:61-86 | two meeting windows of a log merge to what they cover if and only if their shared lines are their longest overlap |
| LogMerge.DistinctLinesAreKept | frontend/src/composables/useTaskLogCache.ts:61-86 | with distinct lines that is always so |
| LogMerge.RepeatedLineIsLost | frontend/src/composables/useTaskLogCache.ts:61-86 | two windows of a log with a repeated line whose merge lacks a line |
| LogMerge.TaskLogCache.Ingest | frontend/src/composables/useTaskLogCache.ts:88-101 | stores the merge, unless it is as long as the cached window and ends in the same line |
| LogMerge.NewLinesAreDroppedExactlyWhen | frontend/src/composables/useTaskLogCache.ts:88-101 | a merge that differs from the cached window is dropped if and only if the cache is full, the incoming lines end in the same line, and their last lines are not the end of the cached ones |
| LogMerge.NewLinesCanLookSame | frontend/src/composables/useTaskLogCache.ts:88-101 | a family of such merges that hold a new line |
| LogMerge.TaskLogCache.Clear | frontend/src/composables/useTaskLogCache.ts:103-111 | drops exactly the window of one task |
| LogMerge.TaskLogCache.Prune | frontend/src/composables/useTaskLogCache.ts:113-129 | keeps exactly the windows of the tasks named |
| MediaPlan.FindCaption | internal/engine/filter.go:130-143 | the text of the least positive id, if there is one |
| MediaPlan.Split | internal/engine/filter.go:145-172 | kept and skipped make up the group; a message is kept exactly if it has media of an allowed type that can be sent on and, for a file, its suffix passes |
| MediaPlan.PlanMediaGroup | internal/engine/filter.go:124-223 | never both text and media; a text only if nothing is kept, there is one, and texts are allowed |
| MediaPlan.MediaInOrder | internal/engine/filter.go:174-222 | the media are the kept messages by id, each once; only the first one's text may differ |
| MediaPlan.SomeCaptionSurvives | internal/engine/filter.go:207-218 | the first of the media carries a text exactly if the group has one |
| MediaPlan.OnlyCaptionIsKept | internal/engine/filter.go:207-218 | a group with one text never loses it when media survive |
| MediaPlan.CaptionSurvivesExactlyWhen | internal/engine/filter.go:207-218 | the chosen caption goes out if and only if the first kept message has no text or a kept message says the same |
| MediaPlan.CaptionOfSkippedMessageIsLost | internal/engine/filter.go:207-218 | a caption on a filtered message is lost when the message that stays has its own text |
| MediaPlan.VideoCaptionIsLost | internal/engine/filter.go:207-218 | a concrete such group |

## Left out

- Telegram, Bot API, HTTP, media conversion and the text of log lines: oracles or opaque values.
- Database failures and partial writes: each UPDATE or INSERT is one step that succeeds. The scheduler persists after it unlocks; the row is modelled as changing with the counters.
- CommentProtocol.SentAtMostOnce: one consumer at a time, as the mutex of a run's pipeline has it (comment.go:59); the last consumer of a superseded run, which has a mutex of its own, can overlap the next one's.
- CommentProtocol: the producer and the edit workers (comment.go, comment_edit_worker.go) are steps of a relation on values rather than methods, because it is their interleaving that matters. Edit submissions are accepted, so an overflowing edit queue is not modelled; neither are two edit jobs of one comment overlapping between read and network call, album edits, bot-publisher edits, keyword rewriting, white space beyond blank, tab and line ends, or a process crash between a send and its commit.
- CommentScan.CommentQueue.SendPending: a cancellation before a batch is read is one before its first group; the end of the pass is proved for a queue that nobody inserts into meanwhile; reply targets, caption truncation and root repair are not modelled.
- Scheduler: rules are parsed already, slot keys are structured values rather than strings, and time zones and daylight saving are left out. A row read before a commit or a slot entry and taken over after it, a slot entry whose reset of the row is cut off by a cancellation within that very call (scheduler.go:552-554, 565-567), and a rule change while tokens are out overwrite counters; whole-run statements do not cover them.
- RuntimeWorker.RuntimeTask.RunQueue: the order is old to new; with the other one only the greatest id moves. The daily limit and the window stay fixed during a queue, and the worker is the only client of its schedule.
- History.HistoryTask.CloneOldToNew: the history does not change during a run; nil messages, delays and counters are not modelled. A limit on the number of messages counts per run, as in the code.
- History: the new-to-old loop, the catch-up loop and the estimate of totals use the same paging and add no harder statement.
- Quota.TaskQuota.WaitForQuota: sleeping is the next reading of the clock; configuration changes while waiting are not modelled.
- Dedup.Deduper.Seen: the clock is read under the lock and never goes back.
- Grouper: the flush callback is a returned batch; nil arguments are not modelled.
- ReplyMapping.TaskMappings.LookupTargetMsgID: one task, used sequentially, with an open store.
- Fencing: tasks' cancel functions are recorded as cancelled runs; persisted snapshots, publishers and registrations are not modelled.
- MediaPlan: a blank text is the empty one, and ids are not negative.
- LogMerge: the storage behind the cache, and lines that are not text.
- REST handlers, authentication, configuration and the user interface.
