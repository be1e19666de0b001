# Voxhelm verification

Dafny models of the parts of Voxhelm whose guarantees are decided by its own code, and
proofs of those guarantees. `dafny verify dfyconfig.toml` checks everything.

Speaker re-cut (`transcriptions/known_speaker.py`, `transcriptions/diarization.py`)

- `SpeakerTurns` brings diarization turns into normal form, `TrackTurns` compresses the
  frames of a speaker track into turns, `TurnSweep` resolves overlapping turns and
  `TurnOverlay` cuts them into the track. `Turns` says what a list of turns means: who
  speaks at every time. The loops are proved against that meaning.
- `SegmentRecut` splits transcript segments at the turns. `FoldedCuts` and `TurnCuts` say
  at which words it does, without speaking of how pieces are folded.
- `SpeakerVotes` classifies segments in two passes, and `RawLabels` says on the turns and
  votes themselves what a segment's label is and when a segment is accepted.
  `ReferenceWindows` places the enrolment windows.

Jobs (`jobs/remote_workers.py`, `jobs/services.py`, `jobs/retention.py`, `jobs/staging.py`)

- `RemoteLease` has the updates of the job row, all sequences of requests, expiries and
  prunes, and the job as an object with one method per endpoint that keeps the invariant
  of those sequences. `WorkerCapacity` counts the leases of one worker over many jobs.
- `Retention` has the tables, key layouts and deletion steps, `RetentionSafety` every
  interleaving of publishing, completing, staging and deleting, `RetentionLeaks` what
  still finds each stored object in them, `RetentionPrune` the batches and the agreement
  of the dry run with the real run, `RetentionStore` the retention service as methods on a
  mutable database. `RetentionDue` says on the columns which rows a run takes and leaves,
  `GeneratedKeys` which keys the deletions accept.

Admission (`lane_scheduler.py`, `operators/login_throttle.py`)

- `LaneScheduler` is the scheduler over its files, `LaneRuns` its runs with crashes at
  any point. `LoginThrottle` is the throttle over an expiring cache with a table that
  never forgets as ghost state, `LoginRuns` its runs.

Text and sequences

- `CueText`, `VttTime` and `WebVtt` print WebVTT and parse it as sections 4.1, 6.1 and
  6.4 of the W3C WebVTT specification say. `TokenChunks`, `LoopCollapse` with
  `CollapseTwice`, and `DriftSplice` are three sequence transformers.
- `Wrappers`, `Sequences`, `Sets`, `StableSort`, `TextOrder`, `PlainText`, `Decimal` and
  `Rounding` are the stock they share.

Times are exact reals, and a turn that never ends has the end `Never`. Each locked
section, transaction or row update is one step. Embedding similarities, function-word
counts, comparison keys and transcription results are parameters.

Where the code and what is said about it differ:

- The capacity check of a claim does not keep a worker within its concurrency: a worker
  heartbeat may announce less than the worker holds (1, when it names no concurrency), and
  a beat that read the clock before its lease ran out may be written after another job was
  claimed. `WorkerCapacity.ExceedsIffOverstepped` says that nothing else does it,
  `LoweringExceeds` and `RevivingExceeds` are runs in which it happens.
- A stored upload does not always have a row: one that takes longer than its registration
  is kept is stored after its row expired (`RetentionLeaks.SlowUploadIsStoredLate`).
  `RetentionLeaks.LeakedIffLost` says exactly when a stored object is left behind: when it
  is stored late, or when its publisher dies between storing it and writing its row. An
  upload is late if and only if its row is gone, an attempt's object if and only if no
  prefix record of the attempt, artifact row or queue entry accounts for it
  (`UploadIsLateIff`, `AttemptObjectIsLateIff`).
- `summarize_raw_labels` leaves out speakers with an empty name, which classification
  counts. The two vote tables agree if and only if there was no such vote
  (`SpeakerVotes.RecountEqualsVotes`); submission refuses empty names
  (`jobs/services.py:739-741`), so then the label maps agree too.
- Waiting calls are ordered by the time each one read before it took the lock, so a call
  that registers later can still get ahead. `LaneRuns.AheadGrowsIff` says exactly when,
  `LaneRuns.LateRegistrationGetsAhead` gives a case.
- Collapsing loops twice can collapse more when times move backward.
  `CollapseTwice.SecondPassChangesIff` says exactly when, `EndsThatMoveBack` is a case.
- A WebVTT parser replaces null characters, so a cue text with one does not come back
  (`WebVtt.RoundTrip`).
- Shortening `-->` to `->` leaves an arrow in the line if and only if the stripped line
  holds `--->` (`CueText.LineHoldsArrowIff`). The payload is still safe, because `>` is
  escaped afterwards.

The dry run agrees with the real run in every state that can be reached. That this needs
the generated key layouts shows on a database that no run reaches
(`RetentionPrune.OutsideTheLayoutTheyDiffer`).

## Model

| member | source | states |
|---|---|---|
| SpeakerTurns.NormalizeSpeakerTurns | transcriptions/diarization.py:327-347 | the loop over sorted turns with its label dictionary yields the normal turns of the usable inputs, numbered by first appearance |
| SpeakerTurns.NormalTurnAt | transcriptions/diarization.py:327-347 | every usable turn is kept in place with clamped times and the number its label has in the whole list |
| SpeakerTurns.SameNameIffSameLabel | transcriptions/diarization.py:328-346 | two normal turns carry the same name exactly when their stripped backend labels were equal |
| SpeakerTurns.NormalTurnsAreUsable | transcriptions/diarization.py:330-347 | normal turns start at 0 or later, have positive length and stand in start order, which is what the overlay asks of them |
| SpeakerTurns.UsableOnColumns | transcriptions/diarization.py:330-337 | the usable turns are those with a label that end after 0 and after their start, each as often as it is given, ordered by start, end and label |
| SpeakerTurns.TimesOnColumns | transcriptions/diarization.py:334-344 | a normal turn has the times of its usable turn, a start before 0 moved to 0 |
| SpeakerTurns.NumberedByAppearance | transcriptions/diarization.py:328-346 | a label gets the name "Speaker n" with n one more than the number of other labels that appear before it |
| TrackTurns.TurnsOfTrack | transcriptions/known_speaker.py:723-762 | for ascending positive centres the turns run from 0 to never without gap, neighbours differ, cuts lie between the frames they part, and every clear frame of a run that survived the two-frame filter lies in a turn of its own speaker |
| TrackTurns.SurvivorsAreInLongRuns | transcriptions/known_speaker.py:732-746 | a clear frame survives (it shares its run with another clear frame of its speaker) exactly when the run that holds it has at least two clear frames |
| TrackTurns.CutBetween | transcriptions/known_speaker.py:747-758 | the boundary between two merged runs lies strictly after the last frame of one and before the first of the next |
| TurnSweep.ResolveOverlappingTurns | transcriptions/known_speaker.py:858-882 | the sweep returns sorted, disjoint, positive pieces, no touching ones of one speaker, that give every time to the last-started turn covering it, ties by label |
| TurnSweep.CanonicalIsUnique | transcriptions/known_speaker.py:858-882 | two lists in that form with the same speaker at every time are the same list |
| TurnSweep.SweepIgnoresOrder | transcriptions/known_speaker.py:858-882 | permuting the input turns does not change the result |
| TurnSweep.SweepIsIdempotent | transcriptions/known_speaker.py:858-882 | sweeping a result again returns it |
| TurnOverlay.CutTurn | transcriptions/known_speaker.py:895-908 | what is left of one track turn speaks exactly at its times that no unmapped piece covers |
| TurnOverlay.OverlayUnmappedTurns | transcriptions/known_speaker.py:885-914 | for track turns tiling from 0 and any unmapped turns with non-negative starts the overlay tiles from 0, and bisecting it finds at every time the prefixed label of the last-started unmapped turn there, else the track speaker |
| Turns.LookupFindsTheCoveringTurn | transcriptions/known_speaker.py:765-766 | on contiguous turns the bisect lookup returns the speaker of the one turn covering the time; times before 0 fall to the first |
| SegmentRecut.FoldSmallPieces | transcriptions/known_speaker.py:804-822 | the fold loop ends, and leaves one piece or only pieces that are large enough, with the segment's words in order and neighbours of different speakers; which pieces it joins is fixed by the TurnCuts rows |
| SegmentRecut.PiecesSplit | transcriptions/known_speaker.py:792-839 | emitted pieces concatenate to the segment's words, tile its time without gap or overlap, have two words and 0.3 s each, and neighbours belong to different turn speakers |
| SegmentRecut.SplitSegmentAtTurns | transcriptions/known_speaker.py:769-839 | the result is the segment itself or such a split of it, as the settled pieces decide; where it is cut the TurnCuts rows say |
| SegmentRecut.TextsAreJoined | transcriptions/known_speaker.py:834 | the text of some words is their texts in order with one blank between any two |
| TurnCuts.WordIsOfTurnAtItsMiddle | transcriptions/known_speaker.py:786 | the turn speaker of a word is the one whose turn covers the middle of the word |
| TurnCuts.CutExactlyAtChanges | transcriptions/known_speaker.py:783-826 | for words in time order a segment is cut before exactly those words at which a run of one turn speaker begins that is large by itself and of another speaker than the last run that leads: one large by itself, or the one with which the words from the beginning become large |
| TurnCuts.LeadComesOutAsItsSpeaker | transcriptions/known_speaker.py:808-839 | every run that leads lies in one part, and that part is its speaker's |
| TurnCuts.LargeRunsAreParted | transcriptions/known_speaker.py:808-822 | two large runs of different speakers with none but small ones between them are cut at the first word of the later one |
| TurnCuts.SmallRunsAreTaken | transcriptions/known_speaker.py:808-822 | no cut comes before a small run, and none after a run as long as the words up to its end are small |
| SegmentRecut.ResegmentResult | transcriptions/known_speaker.py:917-951 | over a whole transcript words are conserved in order, ids are 0 to n-1, and the count of segments from splits is right |
| SegmentRecut.RecutsKeepWords | transcriptions/known_speaker.py:917-951 | re-cut segments, put together, have the words of the input |
| ReferenceWindows.SelectReferenceWindowBounds | transcriptions/known_speaker.py:474-505 | the windows are disjoint, in bounds, exactly as many as fit under the limit when that is at least 2, the first at 0 and the last at the end; the duplicate filter drops none |
| ReferenceWindows.StartsAreAWindowApart | transcriptions/known_speaker.py:494-505 | starts rounded half to even stay at least a window apart |
| SpeakerVotes.Winner | transcriptions/known_speaker.py:1007-1020 | the speaker with the most votes, of equal ones the smallest name |
| RawLabels.SharedIsLength | transcriptions/known_speaker.py:982-989 | the seconds of a turn inside a segment are the length of the interval of the times that both cover |
| RawLabels.SingleLabelIff | transcriptions/known_speaker.py:992-1004 | a segment has the single label l if and only if the seconds of l, summed over all its turns in the segment, are the most, equal ones by name, and those of all other labels together are under 0.3 |
| RawLabels.LabelsAreKnownIff | transcriptions/known_speaker.py:1023-1046 | the labels of a segment are known if and only if it has one and every label with 0.3 summed seconds is tied to a speaker, or none has so many and the one with the most is |
| RawLabels.TiedIff | transcriptions/known_speaker.py:1007-1020 | a label is tied to a speaker if and only if it has five votes, nine tenths of them for that speaker, and no other speaker has more, or as many and a smaller name |
| RawLabels.VotesAreCast | transcriptions/known_speaker.py:1087-1109 | a label has as many votes for a speaker as there are confident segments without a mixed window that have this single label and this top speaker |
| SpeakerVotes.MapRawLabelsToSpeakers | transcriptions/known_speaker.py:1007-1020 | a label is tied to a speaker exactly when it has enough votes and at least the required share of them is for that speaker |
| SpeakerVotes.Decide | transcriptions/known_speaker.py:1084-1198 | a segment has a speaker exactly when it is not uncertain, never with a mixed window against it; each accept reason is justified, a mixed window, corroboration and the track are never passed over |
| RawLabels.AcceptedIff | transcriptions/known_speaker.py:1113-1174 | exactly when a segment is accepted, and for which speaker: by itself, by its label with the lower floor, or by the track, each without a mixed window |
| SpeakerVotes.ClassifySegments | transcriptions/known_speaker.py:1064-1198 | both passes together: the votes are those of the first pass, and every segment keeps the rules above |
| SpeakerVotes.RecountEqualsVotes | transcriptions/known_speaker.py:1252-1281 | votes recounted from finished segments equal those taken during classification if and only if no ballot went to an empty name |
| SpeakerVotes.SummarizeRawLabels | transcriptions/known_speaker.py:1252-1281 | the loop over finished segments ties labels by the recounted votes, with the rule classification uses |
| SpeakerVotes.SummaryAgreesWithClassification | transcriptions/known_speaker.py:1252-1281 | with named speakers the recomputed label map is the one classification used |
| RemoteLease.RemoteJob.Claim | jobs/remote_workers.py:311-381 | a claim is granted exactly when the attempt count is the one that was read and below the limit, and the job waits or its lease ran out; then the claiming worker alone has an active lease, until the lease time is over, under a prefix that no key of another attempt lies under |
| RemoteLease.RemoteJob.Heartbeat | jobs/remote_workers.py:415-452 | a beat is accepted exactly when the lease it leaves is live at the response; it ends nobody's lease, lasts at least the lease time when it is taken, and moves only lease time, beat time and progress |
| RemoteLease.IsUnderIff | jobs/remote_workers.py:1600-1606 | a key lies under a prefix if and only if it goes on after it, is relative, and has no segment that steps up |
| RemoteLease.RemoteJob.Complete | jobs/remote_workers.py:455-565 | accepted exactly for a live lease with a valid manifest or for the repetition of what is committed; then the job has succeeded with this result, every lasting artifact and keys of this attempt only, and otherwise nothing changes |
| RemoteLease.RemoteJob.Fail | jobs/remote_workers.py:568-617 | accepted exactly for a lease live at both readings of the clock; then it is over for everybody at all times, and the job waits again if and only if it may be retried and has an attempt left |
| RemoteLease.RemoteJob.Reconcile | jobs/services.py:1788-1851 | a lease that has run out is over for everybody and the job waits again if and only if an attempt is left; any other row stays |
| RemoteLease.RemoteJob.FailBeforeClaim | jobs/remote_workers.py:860-877 | no live lease and no finished job is touched, a waiting job or one whose lease has run out fails with nothing committed, and no lease comes to be |
| RemoteLease.AttemptsAreBounded | jobs/remote_workers.py:811-815 | in every run attempts equal claims granted and never exceed the limit, a queued job has one left, and a job makes at most twice that many state changes |
| RemoteLease.TerminalAbsorbs | jobs/remote_workers.py:455-617 | after a terminal state only pruning touches the job, and only its intermediate artifacts |
| RemoteLease.SupersededNeverActs | jobs/remote_workers.py:1620-1647 | a token that was replaced never changes the job again, in any run with fresh tokens |
| RemoteLease.ReplacedTokenNeverActs | jobs/remote_workers.py:340-381 | after a granted claim or a requeue no request with the token before it ever changes the job again, in any run with fresh tokens |
| RemoteLease.LeaseProtects | jobs/remote_workers.py:811-815 | nobody takes a job from its worker before the lease runs out, over any sequence of requests |
| RemoteLease.LatestBeatShows | jobs/remote_workers.py:415-438 | in whatever order the beats of a lease arrive, among any other requests, beat time and progress are those of one beat of the lease or unchanged, and no live beat read the clock later |
| RemoteLease.AttemptPrefixesAreDisjoint | jobs/remote_workers.py:1579-1606 | a key lies under the prefix of one attempt at most |
| RemoteLease.CommittedKeysAreTheWinners | jobs/remote_workers.py:455-565 | committed artifacts lie under the winning attempt's prefix and no other's |
| RemoteLease.CompletionIsRepeatable | jobs/remote_workers.py:1538-1556 | repeating the committed completion is accepted whatever happened since, a different result conflicts, and neither changes the job |
| WorkerCapacity.ExceedsIffOverstepped | jobs/remote_workers.py:228-270 | in every run with changing concurrencies and late requests a worker is at some moment over what it announced last if and only if it announces less than it holds or a late beat revives a lease while it holds that many |
| WorkerCapacity.ClaimIsOfTheRow | jobs/remote_workers.py:311-381 | a claim updates the job as the protocol of its row says if the worker's unexpired leases are fewer than it asks for and than its concurrency, and changes nothing otherwise |
| WorkerCapacity.HeldFitsLastClaim | jobs/remote_workers.py:786-800 | without revived leases no worker ever holds more unexpired leases than the concurrency at its last granted claim |
| WorkerCapacity.LoweringExceeds | jobs/remote_workers.py:228-270 | a run in which a heartbeat without a concurrency leaves a worker with two leases and concurrency 1 |
| WorkerCapacity.RevivingExceeds | jobs/remote_workers.py:415-438 | a run in which a late beat does |
| RetentionSafety.JobRootsAreDisjoint | jobs/retention.py:141-174 | a generated key lies in the directory of one job at most |
| RetentionSafety.UncheckedIsChecked | jobs/staging.py:236-243 | deleting a staged upload without a reference check does what the checked deletion does, since its key is private |
| RetentionSafety.InvAlways | jobs/services.py:1636-1701 | every interleaving of publishing, completion, staging, pruning, draining, cleaning and producer deletion keeps the generated layouts and stores what is verified, in flight or pointed at |
| RetentionSafety.NoRowDangles | jobs/retention.py:394-466 | in every run a row lacks its object only if its own deletion was cut or its upload never finished |
| RetentionSafety.StepsRemoveOnlyUnreferenced | jobs/retention.py:773-926 | in every run no step removes an object that a row surviving the step points at, except a cut step's own row |
| RetentionSafety.AgainCompletes | jobs/retention.py:331-466 | a deletion of a row or prefix that failed or was cut anywhere, run again, leaves what it would have left the first time |
| RetentionLeaks.LeakedIffLost | jobs/staging.py:49-60 | in every run an object is at some moment stored with no row, queued deletion or attempt prefix to find it by and nobody publishing it, if and only if at some moment it is stored when there is none, or its publisher dies before its row is written |
| RetentionLeaks.UploadIsLateIff | jobs/staging.py:82-106 | an upload is stored late if and only if its row is gone |
| RetentionLeaks.AttemptObjectIsLateIff | jobs/remote_workers.py:364-373 | an object of an attempt is stored late if and only if the attempt has no prefix record and no artifact row or queued deletion names its key |
| RetentionLeaks.SlowUploadIsStoredLate | jobs/staging.py:95-131 | a run in which an upload is stored after its row expired |
| RetentionPrune.BatchIsNext | jobs/retention.py:525-537 | a batch holds exactly the rows between its cursor and the next one, at most the batch size, in key order |
| RetentionPrune.PrefixesStayAsTheyWere | jobs/retention.py:370-391 | deletions of generated objects change nothing about which attempt prefixes may be cleaned |
| RetentionPrune.DeleteRowIsExact | jobs/retention.py:583-643 | one row of a real run goes exactly when it is allowed to, with no other row, and only generated objects go |
| RetentionPrune.SweepIsPredicted | jobs/retention.py:583-609 | a phase decided row by row on what earlier deletions left reports and removes what was predicted on the start |
| RetentionPrune.DryRunPredictsRealRun | jobs/retention.py:541-643 | over the generated layouts, from the same cursors and batch size, the dry run reports what a run without failures reports, which removes exactly those rows from each table |
| RetentionPrune.DryRunPredictsInEveryRun | jobs/retention.py:541-643 | so it does in every state the system can reach |
| RetentionPrune.OutsideTheLayoutTheyDiffer | jobs/retention.py:554-570 | the layouts are needed: a concrete database outside them, which no run reaches, on which the dry run refuses a prefix that the real run cleans |
| RetentionStore.Database.PruneArtifact | jobs/retention.py:331-357 | the whole new state and outcome of pruning one artifact, with a store that may refuse |
| RetentionStore.Database.ProcessPending | jobs/retention.py:773-801 | the same for one queued deletion |
| RetentionStore.Database.CleanAttemptPrefix | jobs/retention.py:394-412 | the loop over the listed objects deletes exactly the unregistered ones and then the record, or stops at a failure and keeps it |
| RetentionStore.Database.DeleteExpiredStaged | jobs/retention.py:447-466 | the same for an expired staged upload |
| RetentionStore.Database.DeleteClaimedStaged | jobs/retention.py:415-444 | the same for a staged upload that a finished job still holds |
| RetentionStore.Database.DeleteJobArtifact | jobs/retention.py:902-926 | the same for an artifact of a job being deleted |
| RetentionStore.Database.PruneJobArtifacts | jobs/retention.py:507-643 | a dry run changes nothing; on generated layouts its report is that of a real run without failures; any run, also with failures, removes only unreferenced objects and rows that are due, and of a job row it removes nothing is left |
| RetentionDue.CandidateIffDue | jobs/retention.py:296-328 | a phase selects exactly the rows that are due on their columns: artifacts of finished jobs past the retention of their kind or the backstop, final and exposed ones by the backstop alone, attempt prefixes by it alone, uploads past their expiry or the backstop, jobs past their metadata retention or the backstop |
| RetentionDue.RowGoesIff | jobs/retention.py:525-609 | a run without failures removes a row of the first four tables if and only if it is due, lies in the batch and has a key that may be deleted |
| RetentionDue.JobGoesIff | jobs/retention.py:820-866 | it removes a job row if and only if the job is due, lies in the batch and nothing else of it is left |
| GeneratedKeys.JobKeyIsDeletableIff | jobs/retention.py:141-174 | a job's deletions accept a key if and only if its segments are plain and it ends in the directory of the job and a file, of the right name if known, perhaps below one attempt or allocation directory |
| GeneratedKeys.UploadKeyIsDeletableIff | jobs/retention.py:177-200 | the deletion of an upload accepts a key if and only if its segments are plain and it ends in the directory of the upload and its file name |
| GeneratedKeys.CleanableIff | jobs/retention.py:203-208 | an attempt prefix may be cleaned if and only if it is plain, ends in the directories of its job and attempt, and every stored key that goes on after it is one of the job |
| GeneratedKeys.CleaningTakes | jobs/retention.py:394-412 | cleaning it removes exactly the objects whose keys go on after it and that no artifact or upload row names |
| GeneratedKeys.OneJobPerKey | jobs/retention.py:165-171 | the deletions of one job at most accept a key |
| GeneratedKeys.GeneratedKeysAreDeletable | jobs/retention.py:141-208 | every key, upload key and attempt prefix that is generated below a plain base for a plain file name is accepted by its deletion |
| RetentionStore.Database.DeleteJobForProducer | jobs/retention.py:929-989 | refused as a whole before anything is deleted, or done with nothing of the job left, or interrupted only by a failing store or a refused queue entry; nothing of other jobs goes |
| RetentionStore.Database.ReplaceArtifact | jobs/services.py:1636-1701 | publication swaps the row and drops the old object, failure takes the new object back, and neither leaves an object without a row or a queue entry |
| LaneScheduler.Scheduler.CleanupDeadWaiters | lane_scheduler.py:245-258 | exactly the readable waiter files of live processes are left |
| LaneScheduler.Scheduler.ReclaimHolders | lane_scheduler.py:260-322 | exactly the holder files of live processes are left, and both counts are theirs, the legacy holder as a non-interactive one |
| LaneScheduler.Scheduler.SelectNextWaiter | lane_scheduler.py:324-363 | the choice is a waiter the slots admit, if there is one, and on the columns: an interactive one if one fits, of its lane the one created first, of equal times the smallest token |
| LaneScheduler.NextIsUnique | lane_scheduler.py:324-350 | there is at most one such waiter |
| LaneScheduler.Scheduler.Poll | lane_scheduler.py:181-224 | a locked round reclaims, re-registers and, exactly when its own waiter is chosen, replaces its waiter file by a holder file |
| LaneRuns.RunningCallsKeepToSlots | lane_scheduler.py:120-130 | in every run with crashes anywhere, running calls never exceed all slots and non-interactive ones, with a live legacy holder, never their own |
| LaneRuns.AdmissionKeepsSlots | lane_scheduler.py:191-203 | an admission keeps the slots even when it is cut between holder write and waiter removal |
| LaneRuns.PollLeavesLiveFiles | lane_scheduler.py:185-218 | in every run a poll leaves the holder files of live processes, at most its own besides, and no file of a dead process |
| LaneRuns.AdmittedIffFirstThatFits | lane_scheduler.py:185-218 | a poll admits its call if and only if its lane has a free slot, no waiting call of the lane was created earlier, or at the same time with a smaller token, and no interactive call waits beside a non-interactive one |
| LaneRuns.NobodyIsOvertaken | lane_scheduler.py:335-350 | an admitted call was created before every other waiting call of its lane, or at the same time with a smaller token, and a non-interactive one goes only when no interactive one waits |
| LaneRuns.ReservedSlotAdmitsHead | lane_scheduler.py:352-363 | with fewer live interactive holders than interactive slots, the first interactive call is admitted by its next poll |
| LaneRuns.AheadGrowsIff | lane_scheduler.py:165-179 | more calls get ahead of a waiting one exactly when one registers with a smaller key |
| LoginThrottle.SavingShows | operators/login_throttle.py:47-62 | saving with a deadline, or deleting an empty bucket, shows at no later time any difference to keeping it for ever |
| LoginThrottle.Throttle.Reserve | operators/login_throttle.py:65-77 | over the expiring cache a reservation is granted, and the table changed, as over a table that never forgets |
| LoginThrottle.Throttle.Settle | operators/login_throttle.py:80-98 | the same for settlements, also of replaced entries |
| LoginRuns.InvAlways | operators/login_throttle.py:65-98 | in every run failures and pending checks of any bucket stay within the limit, and every bucket, of an address or a name, holds its running checks and counts the last window of its failures, for a name those since the last success on it |
| LoginRuns.BucketIsHistory | operators/login_throttle.py:47-98 | in every run what a bucket shows is the failures of its key that still count and the checks of its key that run |
| LoginRuns.GrantedIffRoom | operators/login_throttle.py:65-77 | in every run a reservation is granted if and only if failures that count and running checks are under the limit both for its address and for its name, the latter from any address |
| LoginRuns.EndedCheckCounts | operators/login_throttle.py:80-98 | in every run a failed check adds one failure to its address and one to its name, and a success empties the name and leaves the address as it is |
| LoginRuns.FailuresInTime | operators/login_throttle.py:92-97 | windows of at most MAX failures that start at least L apart hold at most MAX times (floor of T over L, plus 1) failures in T seconds |
| LoginRuns.AddressRateIsBounded | operators/login_throttle.py:65-98 | in every run an address completes at most that many failures in the T seconds after its first one |
| VttTime.CollectBack | transcriptions/formats.py:168-173 | collecting a printed timestamp by section 6.1 returns its milliseconds and what follows it |
| VttTime.ReadBack | transcriptions/service.py:901-913 | for every millisecond count, formatting and then reading the timestamp is the identity |
| VttTime.MillisecondsAreNearest | transcriptions/formats.py:168-169 | a time is printed as the nearest number of milliseconds, of two as near the even one, and nothing before 0 |
| CueText.LineKeepsWords | transcriptions/formats.py:75-86 | collapsing line breaks changes whitespace only, and one stripped line is left alone |
| CueText.SingleLineIsLine | transcriptions/formats.py:75-87 | the single line has no break, no blank edge, every other character of the text, and is empty only for blank text |
| CueText.StretchBecomesSpace | transcriptions/formats.py:75-86 | a stretch of whitespace with a line break in it becomes one space, and one without stays, wherever it is |
| CueText.FirstArrowIsShortened | transcriptions/formats.py:87 | the first arrow loses a dash, the text before it stays, and the rest is dealt with for itself |
| CueText.LineHoldsArrowIff | transcriptions/formats.py:86-87 | the single line holds an arrow if and only if the stripped line holds one with another dash before it, and some do |
| CueText.EscapeIsEach | transcriptions/formats.py:88 | the three replacement passes escape character by character |
| CueText.DecodeOfEscape | transcriptions/formats.py:78-88 | decoding the references by section 6.4 undoes escaping for every text |
| WebVtt.Render | transcriptions/formats.py:60-72 | the loop over lines prints the file that the parser results below are about |
| WebVtt.SegmentIsKeptIff | transcriptions/formats.py:124-149 | a segment is kept in its place if and only if its text has more than whitespace, its end no earlier than its start; a text without segments is one cue at the start |
| WebVtt.ParseOfRendered | transcriptions/formats.py:60-72 | parsing the printed file by section 6.1 gives one cue per kept segment, in order |
| WebVtt.RoundTrip | transcriptions/formats.py:60-173 | each segment with text comes back with its start and clamped end in milliseconds; its decoded text is the single-line text, if and only if that has no null character |
| TokenChunks.BuildTokenChunks | synthesis/kokoro.py:439-471 | the loops build the texts of the greedy packing |
| TokenChunks.ChunksFit | synthesis/kokoro.py:439-471 | no chunk is empty or over the budget |
| TokenChunks.TokensAreKept | synthesis/kokoro.py:439-471 | the chunks without inserted separators are the input tokens in order |
| TokenChunks.FewestChunks | synthesis/kokoro.py:439-471 | for any sentences, no way to put the non-empty ones in order into chunks of whole sentences and into pieces of single ones, within the budget, has fewer chunks |
| TokenChunks.GreedyIsUnique | synthesis/kokoro.py:439-471 | the chunks are the texts of any layout that puts whole sentences together while the next one fits and cuts a sentence over the budget into full pieces and a rest |
| TokenChunks.SentencesAreSeparated | synthesis/kokoro.py:439-471 | a chunk of whole sentences is their tokens in order with one separator between any two |
| TokenChunks.StretchesAreApart | synthesis/kokoro.py:451-457 | a sentence over the budget is cut by itself and the stretches around it are packed for themselves |
| TokenChunks.EmptySentencesAreSkipped | synthesis/kokoro.py:449-450 | an empty sentence anywhere leaves no trace |
| LoopCollapse.CollapseLoops | transcriptions/sanitizer.py:130-160 | the nested loops compute the collapse over runs, also with too few segments to collapse |
| LoopCollapse.RunsArePartition | transcriptions/sanitizer.py:138-151 | the runs are chains that make up the transcript and cannot be joined |
| LoopCollapse.PartitionIsUnique | transcriptions/sanitizer.py:138-151 | there is no other such partition |
| LoopCollapse.RepetitionComesOutAs | transcriptions/sanitizer.py:138-159 | a stretch of segments that cannot be longer, in which each has the key of the one before, starts and ends no earlier and starts within a second of its end, comes out unchanged if it is under the threshold, else as its first segment up to the later end and without words |
| CollapseTwice.SecondPassChangesIff | transcriptions/sanitizer.py:130-160 | collapsing again changes something if and only if neighbouring runs that heal (same key, small gap, kept start not after and kept end not before) keep together as many segments as the threshold |
| CollapseTwice.CollapsingTwice | transcriptions/sanitizer.py:130-160 | on transcripts whose starts and ends never move backward collapsing again changes nothing |
| CollapseTwice.EndsThatMoveBack | transcriptions/sanitizer.py:130-160 | a transcript with an end that moves backward on which it does |
| DriftSplice.GridWindows | transcriptions/drift.py:133-140 | the loop fills the grid of the words |
| DriftSplice.GridIsExact | transcriptions/drift.py:129-140 | the grid has each window with words once, with exactly its words |
| DriftSplice.WindowWordsAreInPlace | transcriptions/windows.py:356-357 | the words kept of a retry start in the grid window that was retried |
| DriftSplice.WindowWordsAreAll | transcriptions/windows.py:356-357 | of a retry all words that start in the window are kept, in order, with their text and times |
| DriftSplice.WindowIsRetriedIff | transcriptions/drift.py:200-243 | a window is retried if and only if four function words are English and a tenth of all; its retry is accepted if and only if it is in the language of the episode with probability 0.9, and the record says both counts and what came back |
| DriftSplice.SplicedWindow | transcriptions/drift.py:143-157 | after splicing a replaced window holds exactly its new words and any other exactly its old ones, by start, equal starts in order |
| DriftSplice.SplicingTwice | transcriptions/drift.py:143-157 | splicing the same replacements again changes nothing |
| DriftSplice.RunDriftCheck | transcriptions/drift.py:164-257 | the loop records every window with its retry, splices the accepted retries and counts the records; another language leaves the words alone |
| DriftSplice.RecordsAreRight | transcriptions/drift.py:204-243 | each record's sizes are those of its window before and after, and the window holds the retried or the old words |
| DriftSplice.RecordsAddUp | transcriptions/drift.py:204-257 | the recorded new sizes sum to the length of the result |
| DriftSplice.SummaryAddsUp | transcriptions/drift.py:200-243 | every window is counted, flagged ones are accepted or rejected, and as many are accepted as are replaced |
| DriftSplice.DriftCheckIsStable | transcriptions/drift.py:143-257 | the result is sorted by start and unchanged by splicing again |

## Left out

- Child processes, ffmpeg, whisper, pyannote, onnxruntime, S3 and file access: only their success, failure and returned sequences are parameters.
- HTTP views, forms, settings, field validation, serializers and URL checks: one-branch checks and plumbing.
- Embedding arithmetic and the mixed-window search: similarities, confidences and mixed windows enter classification as given evidence.
- Floating point: times, similarities and clocks are exact reals; overflow and not-a-number checks are not modelled.
- The worker client, its threads and cancellation: the server side carries ownership.
- Clocks that go back, process numbers used twice, cache eviction and other writers of `holder.json`: outside what the code promises.
- TurnCuts.CutExactlyAtChanges: the words stand in time order within their segment; of a segment with other times only the contracts of `SegmentRecut` are proved.
- RemoteLease.RemoteJob.Complete: the object checks of the manifest, metadata sanitizing and the rows kept beside the job are not modelled, and a manifest is a set of artifacts with unique names.
- RemoteLease.RemoteJob.Claim: worker fairness, payload checks and the choice among candidate jobs are left out; one claim is a guarded update of the job it chose.
- WorkerCapacity.ExceedsIffOverstepped: events are the row updates in the order of the database on a clock that does not go back; disabling workers and the other columns of a worker are not modelled.
- WorkerCapacity: a claim first fails jobs whose last lease has run out; in the model each of these is a `Reconcile` event of its own before the claim.
- RemoteLease.RemoteJob.Reconcile: one step on the current row; the source decides on a row it read before, and its guarded update changes nothing when the row has changed since, which in the model is no event at all.
- RemoteLease: the states for cancelled and expired jobs are never entered by these steps and are not modelled.
- RetentionSafety.InvAlways: the artifact prefix setting does not change during a run, a key stands for one location (no symlinks, hard links or equal objects under two identities), and the rows of earlier attempts that a completion would replace do not exist.
- RetentionStore.Database.PruneJobArtifacts: textual checks of the cursor, time limits and other processes between two rows are not modelled; the report keeps the row keys where the source keeps counts.
- RetentionStore.Database.DeleteJobForProducer: the owner check, the reconciliation before it, task results and rows gained while it runs are not modelled.
- RetentionStore.Database.ReplaceArtifact: a failure to write the queue entry itself is not modelled; an artifact row has the columns that deletion reads.
- The columns a row only carries along (sizes, content types, formats, producers) and the updated-at times of steps that do not end a job.
- LaneScheduler.Scheduler.Poll: liveness is fixed during one locked section, all processes see each other, and the warnings about old holders are not modelled.
- LaneRuns.RunningCallsKeepToSlots: withdrawing a waiter file after a failure is assumed to succeed.
- LoginThrottle.Throttle.Reserve: each call reads the clock once, and the cache reads the same one; addresses and normalized user names are given.
- VttTime.ToSeconds: decimal numerals only; the source reads any floating-point literal in each place.
- WebVtt.Parse: style and region blocks hold no cue and are not kept, cue settings stay text, and of the character references only the ones that are printed are decoded.
- TokenChunks.BuildTokenChunks: the budget is at least 1, as the range step of the hard split demands.
- LoopCollapse.CollapseLoops: the comparison key of a text is a parameter.
- DriftSplice.RunDriftCheck: cancellation, the seconds a retry took, the reason text of an unchecked language and the counting of function words are left out or parameters; the joining of tokens to words before the window filter is not modelled.
- Dote, Podlove and verbose JSON renderings, speaker summaries and the text rules of synthesis and sanitizing: easy members or finite tables over a regular expression engine.
