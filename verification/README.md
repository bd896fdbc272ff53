# Service-layer verification of the White Bird site-management platform

A Dafny model of the hard service-layer logic of the platform, with proofs about every input, every run and
every reachable table. `dafny verify dfyconfig.toml` checks the whole project.

## What is modelled

Each service is modelled twice. A class holds its tables as fields and carries the source's branches, loops and
in-place updates; its methods are proved to bring about exactly what a specification function (`Try`/`Apply`,
`Deliver`, `Request`, `Transfer`, `Import`) says. About that function the promised properties are proved, for
single calls and, over `Run`, for whole histories of calls. A refused call (a raised `ValidationError` or a
violated database constraint) is an `Err` and leaves the tables as they were.

| module | source | content |
|---|---|---|
| `DayCircle` | assignment_services.py | the 1440-minute clock: wrapping spans, the two-point overlap test, and what both mean minute by minute and in absolute time |
| `AreaSchedule` | assignment_services.py | assign, update, deactivate and copy of area slots |
| `IssueJobs` | issues_services.py | the coupled issue and job life cycles and their outbox of events |
| `Attendance` | attendance_services.py | sheet generation, bulk and single entry, the review workflow and locking |
| `Inspection` | inspection_services.py, models.py | answer validation, score and verdict, the freezing workflow |
| `Workforce`, `Staffing` | hr_services.py, assignment_services.py | placements and the all-or-nothing batch transfer |
| `Workbook` | hr_services.py | row validation, preview and the all-or-nothing import |
| `CsvExport` | export_services.py | the CSV printer, and a reader for section 2 of RFC 4180 (LF line ends) |
| `Calendar`, `ReportDelivery` | report_delivery.py | Gregorian dates, period windows and keys, the delivery ledger |
| `Throttle` | core/throttling.py | the fixed-window limiter over an expiring cache |
| `Pagination` | core/pagination.py | page slices and links |
| `Digits`, `Texts`, `Sequences`, `Wrappers` | | numerals, text tests, permutations, result types |

Tables whose rows are never deleted are sequences; a row's key is its position. Dates are day numbers except in
`Calendar`; marks and scores are in hundredths; permission checks are boolean arguments.

## Where the code does less, or other, than its words

Each of these is kept as the code has it, with a case in which it happens and the exact condition.

- Area slots are checked per date on a clock. Two accepted slots of one cleaner are at the same absolute minute
  exactly when one crosses midnight into the other's date and the other starts before its tail ends
  (`TrueCollisionsAreOvernightTails`; a run: `OvernightTailIsNotChecked`).
- Generating a sheet "never duplicates" and is idempotent without a shift filter. With one, at a site with full-time
  work, it aborts exactly when an expected full-time cleaner already has a record; so a repeat aborts as soon as
  one is expected (`GenerateAbortsWhenOverlooked`, `FilteredRepeatAborts`; a run: `FilteredRepeatHappens`).
- LOCKED attendance is left exactly when its day, fully marked, is submitted again by someone permitted to
  (`LockedLeavesBySubmit`; a run: `LockedIsSubmittedAgain`).
- The documentation calls the score the average of the SCORE answers. The code averages every number stored. The
  mean is the documented one exactly when the other answers' numbers have that mean themselves (with no SCORE
  answer: when there are none); the rounded score, when their sum lies in an interval one hundredth per number wide
  about their share of it; the verdict, when an answer failed or the other numbers do not cross the threshold (`MeanAsDocumented`,
  `ScoreAsDocumented`, `VerdictAsDocumented`; a run from NEEDS_ATTENTION to PASSED: `StrayNumberChangesVerdict`).
- A closed issue keeps all its jobs closed until exactly a well-formed job is created on it or one of its jobs is
  reopened with a reason (`ClosedIssueRegainsOpenJobs`; a run with each: `ClosedIssueWithOpenJob`).
- Ending an assignment is not validated: a transfer leaves an end date before the start exactly for the open rows of
  the people named that had no end and were to start later (`EndedBeforeItStarts`; a run: `TransferEndsBeforeStart`).
- A ledger is kept "to prevent duplicate sends after retries". A period's report is answered "sent" at most once, but
  its mail is taken at most once exactly when no attempt that the provider would take follows one whose reply was
  lost with none accepted before (`SentAtMostOnce`, `MailTwiceNeedsLostReply`; a run: `LostReplyMailsTwice`).
- "Requests per 60-second window" are counted per clock minute. A 60-second window keeps the limit in every run
  exactly when it starts with a clock minute; any window admits at most twice the limit, and that many can be
  admitted (`WindowKeepsLimitWhenAligned`, `AtMostTwiceTheLimit`, `TwiceTheLimitHappens`).
- A CSV cell loses two things and no more: whether an empty text was present at all, and whether the quote before a
  formula was the guard's (`SameFieldMeans`).

## Model

| member | source | states |
|---|---|---|
| DayCircle.Duration | apps/site_management/assignment_services.py:257-259 | a span lasts 1 to 1440 minutes and leads from its start to its end on the clock; equal ends mean the whole day |
| DayCircle.MinutesTell | apps/site_management/assignment_services.py:248-250 | hour and minute can be told from the minute of the day |
| DayCircle.OverlapIsSharedMinute | apps/site_management/assignment_services.py:253-262 | the two-point test is true exactly when the two wrapped spans share at least one minute of the clock |
| DayCircle.OverlapIsCollisionOfRepeatedDay | apps/site_management/assignment_services.py:253-262 | on one date the test means: they collide that day, or one collides with the other worked again the next day |
| DayCircle.CollisionAcrossDates | apps/site_management/models.py:1254-1256 | spans on different dates meet in absolute time exactly when the earlier crosses midnight into the next date past the later one's start |
| AreaSchedule.AssignAcceptsFreeMinutes | apps/site_management/assignment_services.py:265-314 | a slot is accepted exactly when its references exist at one site and its minutes are disjoint from those of the same cleaner's other active slots of the date, whoever else works then; it is added as one active row |
| AreaSchedule.UpdateAcceptsFreeMinutes | apps/site_management/assignment_services.py:317-355 | an update is accepted exactly when the row with the given columns fits and is free of all rows but itself |
| AreaSchedule.CopyMakesFreeSources | apps/site_management/assignment_services.py:374-412 | a day copy adds one active copy, column by column, of exactly those source rows whose minutes are free on the target day, and keeps all rows |
| AreaSchedule.ApplyKeepsValid | apps/site_management/assignment_services.py:277-412 | assign, update, deactivate and copy keep a cleaner's active slots of each date pairwise apart |
| AreaSchedule.RunNeverDoubleBooks | apps/site_management/assignment_services.py:253-412 | over every run a cleaner's active slots of a date share no minute and together last at most 1440 minutes |
| AreaSchedule.RunPreservesHistory | apps/site_management/assignment_services.py:358-371 | over every run rows are never lost, keep assignment and date, and a removed slot never becomes active again |
| AreaSchedule.EarlierCopiesNeverBlock | apps/site_management/assignment_services.py:386-405 | in a day copy, what was already copied never blocks a later source: only the target day as it was decides |
| AreaSchedule.CopyIgnoresOrder | apps/site_management/assignment_services.py:380-406 | whatever order the query returns, the same copies are made, equally often |
| AreaSchedule.CopyTwiceCreatesNothing | apps/site_management/assignment_services.py:374-412 | a second identical copy creates no slot |
| AreaSchedule.CopyOntoItselfCreatesNothing | apps/site_management/assignment_services.py:374-412 | copying a date onto itself creates no slot |
| AreaSchedule.TrueCollisionsAreOvernightTails | apps/site_management/assignment_services.py:265-274 | in a reachable table two active slots of a cleaner collide in absolute time exactly by an overnight tail into the next date |
| AreaSchedule.OvernightTailIsNotChecked | apps/site_management/assignment_services.py:265-274 | a run that accepts such a pair |
| AreaSchedule.Scheduler.FindsOverlap | apps/site_management/assignment_services.py:265-274 | the validation loop finds a conflict exactly when another active row of the same cleaner and date shares a minute |
| AreaSchedule.Scheduler.AssignSlot | apps/site_management/assignment_services.py:277-314 | one active row is appended exactly when it fits and its minutes are free, or the table is unchanged and the reason given |
| AreaSchedule.Scheduler.UpdateSlot | apps/site_management/assignment_services.py:317-355 | only the named row changes, column by column, to a fitting and free one; a refused update changes nothing |
| AreaSchedule.Scheduler.DeactivateSlot | apps/site_management/assignment_services.py:358-371 | the row stays, inactive |
| AreaSchedule.Scheduler.CopyRows | apps/site_management/assignment_services.py:386-406 | the loop over a growing table creates exactly the sources that overlap nothing already on the target day, and leaves old rows alone |
| AreaSchedule.Scheduler.CopyDay | apps/site_management/assignment_services.py:374-412 | returns the number of slots created; never aborts on a row that was valid |
| IssueJobs.JobMoves | apps/site_management/issues_services.py:347-530 | the only status moves a call can make on a job, and the event each one announces |
| IssueJobs.IssueClimbs | apps/site_management/issues_services.py:158-246 | an issue's status never falls, CLOSED issues never change, and the closing date is set exactly on closing |
| IssueJobs.ReachableJobsFit | apps/site_management/issues_services.py:254-530 | in every reachable state the completion, verification and closing stamps and the assignee are present exactly as the job's status says |
| IssueJobs.ReachableIssuesFit | apps/site_management/issues_services.py:158-246 | in every reachable state only four issue statuses occur, an issue with jobs all closed is closed, and its level counts its escalation events |
| IssueJobs.IssueClosesWithItsJobs | apps/site_management/issues_services.py:227-246 | an open issue becomes CLOSED in exactly those steps after which it has jobs and all are closed |
| IssueJobs.ClosedIssueRegainsOpenJobs | apps/site_management/issues_services.py:254-290 | a closed issue's jobs stay all closed exactly unless a job with a title and the issue's site is created on it, or one of its jobs is reopened with a reason |
| IssueJobs.ClosedIssueWithOpenJob | apps/site_management/issues_services.py:506-530 | a run to a closed issue after which either call leaves it closed with a job that is not |
| IssueJobs.RunOrdersJobEvents | apps/site_management/issues_services.py:368-479 | over every run a job's completions directly follow assignments, verifications directly follow completions, and assignments come first or after one of these |
| IssueJobs.RunKeepsNotes | apps/site_management/issues_services.py:347-365 | completion notes at any time are a prefix of the notes at any later time |
| IssueJobs.RunKeepsDescriptions | apps/site_management/issues_services.py:158-190 | reviews and escalations only add to an issue's description: over any run of the calls modelled (metadata edits are not) what it says is a prefix of what it says later |
| IssueJobs.LifeFits | apps/site_management/issues_services.py:368-530 | the status of a job is determined by its steps since creation or the last reopening |
| IssueJobs.CycleIsSinceLastOpening | apps/site_management/issues_services.py:506-530 | what counts as the current cycle: the longest end of the life without a creation or reopening |
| IssueJobs.ClosingNeedsOneCompletionThenOneVerification | apps/site_management/issues_services.py:482-503 | every closing is directly preceded by one completion then one verification, with none earlier since creation or the last reopening |
| IssueJobs.CallAnswers | apps/site_management/issues_services.py:81-530 | every accepted call leaves exactly the columns, lines and events it should, and every other row as it was; a refused one leaves everything |
| IssueJobs.AcceptsAdmissible | apps/site_management/issues_services.py:81-530 | a call is accepted exactly when the row is there, its status fits, the actor may and what is asked for is given |
| IssueJobs.RefusalTells | apps/site_management/issues_services.py:81-530 | each refusal names the first thing that was wrong |
| IssueJobs.Desk.JobsOf | apps/site_management/issues_services.py:230-233 | the loop tells whether an issue has jobs and whether all are closed |
| IssueJobs.Desk.CloseIfAllJobsClosed | apps/site_management/issues_services.py:227-246 | closes the issue, with its date, exactly under that condition |
| IssueJobs.Desk.Create | apps/site_management/issues_services.py:81-118 | one OPEN issue and its event are added |
| IssueJobs.Desk.Review | apps/site_management/issues_services.py:158-171 | only an open issue moves to UNDER_REVIEW, with a review line added to its description; jobs are untouched |
| IssueJobs.Desk.Escalate | apps/site_management/issues_services.py:174-207 | the level returned is the number of escalation events of the issue, and a line with level and reason joins its description |
| IssueJobs.Desk.NewJob | apps/site_management/issues_services.py:254-290 | the job is added, assigned with its event if an assignee is given, and its issue advanced |
| IssueJobs.Desk.Assign | apps/site_management/issues_services.py:368-410 | an open or reopened job gets exactly the given assignees |
| IssueJobs.Desk.Start | apps/site_management/issues_services.py:413-422 | an assigned job is started and nothing else of it changes |
| IssueJobs.Desk.Complete | apps/site_management/issues_services.py:425-455 | the job is completed at the given time, keeps its photo unless one is given, has the given notes on a line behind the old ones, and nothing else of it or of other jobs changes |
| IssueJobs.Desk.Verify | apps/site_management/issues_services.py:458-479 | a completed job records its verifier and time |
| IssueJobs.Desk.Close | apps/site_management/issues_services.py:482-503 | only a verified job closes, and closes its issue when it was the last |
| IssueJobs.Desk.Reopen | apps/site_management/issues_services.py:506-530 | the job is reopened and no issue changes |
| Attendance.ScheduledDistinct | apps/site_management/attendance_services.py:61-85 | the partial unique constraints on assignments and bindings make the scheduled pairs of a day distinct |
| Attendance.ScheduledIsOnDuty | apps/site_management/attendance_services.py:61-85 | the pairs are exactly the active cleaners with an active full-time assignment, or an active binding of a shift one, to the site that runs on the day, as mode and filter allow |
| Attendance.GenerateAddsScheduled | apps/site_management/attendance_services.py:88-133 | a generated sheet has exactly the old keys and those of the people on duty, and old records are untouched |
| Attendance.GeneratedRowsAreBlank | apps/site_management/attendance_services.py:110-123 | the records added are SCHEDULED drafts of the site and day with nothing entered |
| Attendance.GenerateIsIdempotent | apps/site_management/attendance_services.py:88-133 | without a shift filter, or at a shift site, generation never aborts and repeating it adds nothing |
| Attendance.GenerateAbortsWhenOverlooked | apps/site_management/attendance_services.py:105-125 | generation aborts exactly when a filter hides an existing record of an expected full-time cleaner |
| Attendance.FilteredRepeatAborts | apps/site_management/attendance_services.py:69-108 | a filtered repeat at a site with full-time work aborts exactly when some full-time cleaner is expected |
| Attendance.FilteredRepeatHappens | apps/site_management/attendance_services.py:69-108 | a run in which the first filtered generation succeeds and its repeat aborts |
| Attendance.CallKeepsRecords | apps/site_management/attendance_services.py:153-457 | no call changes a record's key, nor mark, times or notes of a submitted, reviewed or locked one |
| Attendance.CallMovesReview | apps/site_management/attendance_services.py:307-457 | the only review moves each call can make, and on which records: of the group named, or due for the lock |
| Attendance.CallAnswers | apps/site_management/attendance_services.py:267-457 | every accepted entry, submission, return, review or lock writes exactly the columns of exactly the records it should |
| Attendance.RefusalTells | apps/site_management/attendance_services.py:267-436 | each refusal of these names the first thing that was wrong |
| Attendance.RunKeepsSound | apps/site_management/attendance_services.py:88-457 | over any history of calls and changing rosters, while the clock runs forward: keys distinct, no submitted, reviewed or locked record still SCHEDULED, locked ones at or before the cutoff |
| Attendance.LockedLeavesBySubmit | apps/site_management/attendance_services.py:311-329 | a locked record leaves LOCKED exactly when its group is submitted by someone permitted and all of it is marked |
| Attendance.LockedIsSubmittedAgain | apps/site_management/attendance_services.py:311-329 | a run of entry, submission, review and lock after which the day is submitted again |
| Attendance.BulkWritesEntries | apps/site_management/attendance_services.py:153-252 | in an accepted batch every entry names an editable record, written as its first entry says, or a new one of its own, which is added |
| Attendance.BulkWritesNothingElse | apps/site_management/attendance_services.py:227-245 | a record no entry names stays as it was, and every record added is some entry's |
| Attendance.BulkAcceptedWhen | apps/site_management/attendance_services.py:145-252 | a batch is accepted exactly when its date is allowed, its site known, each entry fits, and no two ask for the same new record |
| Attendance.EntryRefusalTells | apps/site_management/attendance_services.py:153-213 | a refused entry is refused for the first thing that was wrong with it |
| Attendance.FirstMentionDecides | apps/site_management/attendance_services.py:242-245 | a record named twice in a batch is written as the first mention says |
| Attendance.UnmentionedStays | apps/site_management/attendance_services.py:242-245 | a record no entry names is not written |
| Attendance.Engine.ListScheduled | apps/site_management/attendance_services.py:61-85 | the two loops list the full-time pairs, then the shift pairs: exactly the people on duty |
| Attendance.Engine.GenerateSheet | apps/site_management/attendance_services.py:88-133 | blank records are created for exactly the people on duty who have none, or nothing at all; the day's records are returned |
| Attendance.Engine.BulkUpsert | apps/site_management/attendance_services.py:215-252 | all entries or none are written; the first bad entry decides the refusal; the day's records are returned |
| Attendance.Engine.RecordSingle | apps/site_management/attendance_services.py:267-300 | an editable record gets the mark, times and notes given; any other is refused |
| Attendance.Engine.SubmitDaily | apps/site_management/attendance_services.py:307-349 | submits a non-empty fully marked group and returns its size |
| Attendance.Engine.ReturnOne | apps/site_management/attendance_services.py:352-370 | any record but a locked one is returned |
| Attendance.Engine.ReturnDay | apps/site_management/attendance_services.py:373-395 | every record of the group that is not locked is returned, and their number given |
| Attendance.Engine.ReviewDay | apps/site_management/attendance_services.py:398-418 | the group's submitted records are reviewed and counted, then the site's old enough ones locked |
| Attendance.Engine.ReviewOne | apps/site_management/attendance_services.py:421-436 | only a submitted record is reviewed |
| Attendance.Engine.LockIfRequired | apps/site_management/attendance_services.py:439-457 | reviewed records of the site at or before the cutoff are locked, whatever their day, and counted |
| Inspection.HalfEvenIsNearest | apps/site_management/inspection_services.py:386-388 | the rounded mean is the nearest hundredth, the even one on a tie |
| Inspection.NearestIsUnique | apps/site_management/inspection_services.py:386-388 | and only one number is |
| Inspection.PassedFromSum | apps/site_management/inspection_services.py:391-396 | with no failed answer the verdict is PASSED exactly when twice the sum of hundredths reaches 13999 per number averaged |
| Inspection.FailedWhenSomeFailed | apps/site_management/inspection_services.py:385-392 | the verdict is FAILED exactly when some answer is marked as not passed |
| Inspection.ScoreBetween | apps/site_management/inspection_services.py:384-390 | the score lies between the least and the greatest number averaged |
| Inspection.OrderDoesNotMatter | apps/site_management/inspection_services.py:375-397 | score and verdict do not depend on the order of the answers |
| Inspection.RunKeepsSound | apps/site_management/inspection_services.py:240-473 | over every run a submitted or reviewed inspection stores the recomputed score and verdict and has every required answer complete |
| Inspection.ReviewOnlyConfirms | apps/site_management/inspection_services.py:459-473 | reviewing changes nothing but the status |
| Inspection.FrozenUntilReturned | apps/site_management/inspection_services.py:80-84 | no call changes answers, score or verdict of a submitted or reviewed inspection; it becomes editable exactly by a permitted return with a reason |
| Inspection.SubmitWhenAnswered | apps/site_management/inspection_services.py:400-433 | an editable inspection can be submitted exactly when every required item is completely answered (and the score fits its column) |
| Inspection.LowScoreFails | apps/site_management/models.py:2117-2122 | in every reachable inspection a SCORE answer below 50 makes the verdict FAILED |
| Inspection.NegativeAnswerFails | apps/site_management/models.py:2105-2122 | an accepted no, or not passed, added or put in by an update, makes the verdict FAILED |
| Inspection.CallAnswers | apps/site_management/inspection_services.py:240-473 | every accepted call leaves exactly the columns it should; answers are stored as given, with passed and yes-no kept in step |
| Inspection.AcceptsAdmissible | apps/site_management/inspection_services.py:240-473 | a call is accepted exactly when the status, the answer's kind and the required answers allow it |
| Inspection.RefusalTells | apps/site_management/inspection_services.py:240-473 | each refusal names the first thing that was wrong, an incomplete submission exactly the labels that lack an answer |
| Inspection.AsDocumentedWithoutStrays | apps/site_management/inspection_services.py:375-397 | where only SCORE answers carry numbers, score and verdict are the documented ones |
| Inspection.MeanAsDocumented | apps/site_management/inspection_services.py:378-386 | the unrounded mean is the documented one exactly when the other numbers have the same mean, or with no SCORE answer when there are none |
| Inspection.ScoreAsDocumented | apps/site_management/inspection_services.py:378-388 | the stored score is the documented one exactly when the sum of the other numbers lies in an interval about their share of it, ends included for an even score; with no SCORE answer, when there are none |
| Inspection.VerdictAsDocumented | apps/site_management/inspection_services.py:378-396 | the verdict is the documented one exactly when an answer failed or the other numbers do not carry the mean across the threshold |
| Inspection.StrayNumberChangesVerdict | apps/site_management/inspection_services.py:383-384 | a run in which another answer's number turns the documented NEEDS_ATTENTION into PASSED |
| Inspection.Inspector.RequiredItemsMissing | apps/site_management/inspection_services.py:356-372 | the loop collects the labels of the required items without a complete answer, in order |
| Inspection.Inspector.AddResult | apps/site_management/inspection_services.py:240-275 | one answer per item is appended as given, with what its kind derives, only while editable |
| Inspection.Inspector.UpdateResult | apps/site_management/inspection_services.py:278-314 | the given columns replace the old, the rest stays, and the answer is revalidated, only while editable |
| Inspection.Inspector.UploadPhoto | apps/site_management/inspection_services.py:317-337 | a photo is attached to a photo item, only while editable |
| Inspection.Inspector.SaveAsDraft | apps/site_management/inspection_services.py:340-353 | the preview equals a recomputation |
| Inspection.Inspector.SubmitSheet | apps/site_management/inspection_services.py:400-433 | submission is refused with the missing labels, or freezes score and verdict and records its time |
| Inspection.Inspector.ReturnSheet | apps/site_management/inspection_services.py:436-456 | a reason is appended and the inspection becomes editable |
| Inspection.Inspector.ReviewSheet | apps/site_management/inspection_services.py:459-473 | the recomputation on review leaves all but the status as submission stored it |
| Workforce.Latest | apps/site_management/hr_services.py:295-299 | the present assignment is the open one that started last, the later row on a tie |
| Workforce.KindFor | apps/site_management/hr_services.py:230-235 | the kind chosen is one the destination's work mode admits, and the present one where both are |
| Workforce.KindIsRight | apps/site_management/hr_services.py:230-235 | the kind planned is the site's only one, else that of the present assignment, else FULL_TIME |
| Workforce.AssignAnswers | apps/site_management/assignment_services.py:65-109 | a placement is made exactly when the person is not inactive, the dates are in order, the site has the kind and no row stands in the way |
| Workforce.FoundAll | apps/site_management/hr_services.py:263-267 | comparing lengths detects exactly the batches naming an unknown cleaner |
| Workforce.TransferSucceedsWhenAllCanMove | apps/site_management/hr_services.py:250-290 | a batch succeeds exactly when its form is right and every person named can move; one who cannot stops all |
| Workforce.BatchRefusalTells | apps/site_management/hr_services.py:250-290 | a refused batch names what was wrong with its form, an unknown person, or the first person in key order who may not move |
| Workforce.OneOpenPlacementEach | apps/site_management/hr_services.py:293-304 | after it each person has exactly one open assignment: new, at the destination, of the site's kind or the kind of their last started open one, FULL_TIME without one, active only for active cleaners |
| Workforce.TransferKeepsHistory | apps/site_management/hr_services.py:293-304 | one row is added per distinct person, their open rows are ENDED, and all other rows are as before |
| Workforce.ProgrammesFollow | apps/site_management/hr_services.py:305-323 | running programmes of the people named are at the destination and every trainee named has one |
| Workforce.TransferKeepsProgrammes | apps/site_management/hr_services.py:305-323 | row by row: only running programmes of the people named change, and only in their site; new rows are for trainees named who had none |
| Workforce.TransferKeepsValid | apps/site_management/models.py:1154-1184 | the table rules (work mode, active only for active, no second active or suspended, one programme, unique identity) survive a batch |
| Workforce.EndedBeforeItStarts | apps/site_management/hr_services.py:293-296 | of rows with dates in order, a successful transfer leaves with an end before the start exactly the open, open-ended ones of people named that start after it takes effect |
| Workbook.TransferEndsBeforeStart | apps/site_management/assignment_services.py:139-158 | a run of import and transfer that leaves such a row |
| Workforce.Registry.AssignToSite | apps/site_management/assignment_services.py:65-109 | a placement with its start and optional end is appended, active or draft by the cleaner's status, or refused without effect |
| Workforce.Registry.EndOpenOf | apps/site_management/hr_services.py:295-296 | exactly the person's open rows are ended |
| Workforce.Registry.PlanAll | apps/site_management/hr_services.py:267-290 | all plans are checked before anything is written; the first error is reported, else each person's right kind is fixed |
| Workforce.Registry.CarryOut | apps/site_management/hr_services.py:292-333 | people are moved one after the other; any failure restores the tables |
| Workforce.Registry.TransferBatch | apps/site_management/hr_services.py:238-342 | all or nothing, exactly when everyone can move; returns their number and leaves each placed as they should be |
| Workbook.RowPassesWhenFirst | apps/site_management/hr_services.py:150-172 | a row is accepted exactly when it is well formed and no earlier row, accepted or rejected, carries its identity |
| Workbook.ErrorsAreCounted | apps/site_management/hr_services.py:150-172 | a row has one error for each empty required cell, unknown choice, unreadable date, and repeated identity |
| Workbook.PreviewPartitions | apps/site_management/hr_services.py:175-186 | accepted plus rejected is the total, and accepted identities are pairwise distinct |
| Workbook.ImportCommitsWhenAllCanJoin | apps/site_management/hr_services.py:189-219 | an import commits exactly when status and site are allowed, no row is rejected, and each row's person could be placed and enrolled in the tables before it |
| Workbook.ImportSettlesEveryRow | apps/site_management/hr_services.py:198-217 | after a commit every row was created or matched, the created are exactly the new people, and each has an open assignment at the site (and a programme, for trainees) |
| Workbook.RowImportAnswers | apps/site_management/hr_services.py:199-217 | importing a row changes only its person, adds one FULL_TIME assignment from the registration date unless there is an open one, and one programme of 90 days if a trainee has none |
| Workbook.ImportAddsForRows | apps/site_management/hr_services.py:198-219 | every assignment a committed import adds is such a one, for the person of one of its rows |
| Workbook.ReimportChangesNothing | apps/site_management/hr_services.py:198-217 | importing the same file again changes no table |
| Workbook.ImportKeepsValid | apps/site_management/hr_services.py:189-227 | nothing is written unless no row was rejected, and the table rules survive |
| Workbook.RunKeepsValid | apps/site_management/hr_services.py:189-342 | the table rules hold over every run of imports and transfers |
| Workbook.Importer.ValidateRow | apps/site_management/hr_services.py:150-172 | a row is clean exactly when well formed with an unseen identity, which is remembered either way |
| Workbook.Importer.PreviewRows | apps/site_management/hr_services.py:175-186 | the preview loop, with accepted plus rejected equal to the total |
| Workbook.Importer.ImportOne | apps/site_management/hr_services.py:199-219 | the row's person is found or created, placed and enrolled |
| Workbook.Importer.ImportAll | apps/site_management/hr_services.py:198-219 | any failing row restores the tables |
| Workbook.Importer.ImportWorkbook | apps/site_management/hr_services.py:189-227 | the answer and the tables after it, for every outcome |
| CsvExport.Guarded | apps/site_management/export_services.py:29-31 | a quote is put before texts that start like a formula, and no guarded text does |
| CsvExport.FieldReadsBack | apps/site_management/export_services.py:28-33 | a printed field reads back as its guarded text, whatever it contains |
| CsvExport.PrintedReadsBack | apps/site_management/export_services.py:28-48 | reading printed rows gives back exactly those rows, for all rows with at least one column and for no others |
| CsvExport.NoCellIsFormula | apps/site_management/export_services.py:25-33 | whatever rows are printed, a reader finds no cell that starts like a formula |
| CsvExport.SameFieldMeans | apps/site_management/export_services.py:28-33 | two values print alike exactly when equal, or one is absent and the other empty, or one is the other's guarded form |
| CsvExport.ExportRows | apps/site_management/export_services.py:40-48 | the stream is the header line and one line for each of the first rows up to the cap |
| CsvExport.ExportReadsBack | apps/site_management/export_services.py:40-48 | a reader of a whole export finds the headers and the first rows up to the cap, in order, with each row's value of each column in its place |
| ReportDelivery.WeeklyIsLastFullWeek | apps/site_management/report_delivery.py:37-44 | a weekly window is the whole Monday-to-Sunday week before the run's week, and exists from the second week of the calendar on |
| ReportDelivery.MonthlyIsPreviousMonth | apps/site_management/report_delivery.py:46-50 | a monthly window is the whole month that ends the day before the run's month |
| ReportDelivery.DailyIsTheDay | apps/site_management/report_delivery.py:35-36 | a daily window is the run's own date |
| ReportDelivery.KeySpellsWindow | apps/site_management/report_delivery.py:36-50 | a key spells the date, the first and last date, or year and month of its window |
| ReportDelivery.WindowsNeverOverlap | apps/site_management/report_delivery.py:34-51 | windows of one type that share a date are the same |
| ReportDelivery.EveryDateIsReported | apps/site_management/report_delivery.py:34-51 | every date before the calendar's last month lies in some run's window |
| ReportDelivery.SuccessiveWindowsMeet | apps/site_management/report_delivery.py:34-51 | runs in successive periods leave no gap: the next window starts the day after |
| ReportDelivery.KeysAreWindows | apps/site_management/report_delivery.py:36-50 | two runs of a type share a key exactly when they share a window |
| ReportDelivery.SentAtMostOnce | apps/site_management/report_delivery.py:223-246 | over every run a key is answered "sent" at most once, exactly when its row is SENT; the provider takes one mail for that and one per lost reply |
| ReportDelivery.MailTwiceNeedsLostReply | apps/site_management/report_delivery.py:215-246 | a key's mail is taken at most once exactly when no attempt for it that would be taken comes after one with a lost reply and before or without an accepted one |
| ReportDelivery.LostReplyMailsTwice | apps/site_management/report_delivery.py:215-246 | a retry after a lost reply mails the same period twice |
| ReportDelivery.SentRowIsFrozen | apps/site_management/report_delivery.py:230-231 | a SENT row is never written again, nor is a row of another key |
| ReportDelivery.DeliverAnswers | apps/site_management/report_delivery.py:223-246 | one attempt answers and writes exactly its row's status, provider id, error (4000 characters at most) and time |
| ReportDelivery.Ledger.DeliverScheduledReport | apps/site_management/report_delivery.py:223-246 | reply and ledger after one call, for every outcome of rendering and sending |
| Calendar.NextOrdinal | apps/site_management/report_delivery.py:38-49 | the day after has the next day number, over month and leap-year ends |
| Calendar.MonthsTakeTurns | apps/site_management/report_delivery.py:46-50 | from January to July and from August to December months take turns of 31 and 30 days, but for February |
| Calendar.FebruaryLeaps | apps/site_management/report_delivery.py:46-50 | February has its leap day in every fourth year but full centuries no 400 divides |
| Calendar.OrdinalInjective | apps/site_management/report_delivery.py:38-49 | a day number names one date |
| Throttle.Limit | apps/core/throttling.py:27-34 | a limit is at least 1, and 1 for amounts below it; per second counts sixtyfold; only unreadable text disables it |
| Throttle.LimitFor | apps/core/throttling.py:70-75 | callers with a token, user or not, have the authenticated rate, all others the anonymous one |
| Throttle.CacheKeyInjective | apps/core/throttling.py:77-78 | no two identities or minutes share a counter, whatever characters the identities hold |
| Throttle.RefusedExactlyAtLimit | apps/core/throttling.py:77-90 | after any run of a clock that never goes back the counter read equals the caller's admissions of the current minute, and a request is refused exactly when these are the limit |
| Throttle.RequestServes | apps/core/throttling.py:77-90 | a request let through under a limit writes its one counter, for 65 seconds from now; any other writes nothing |
| Throttle.AtMostTwiceTheLimit | apps/core/throttling.py:77-90 | any 60 seconds admit at most twice the limit |
| Throttle.WindowKeepsLimitWhenAligned | apps/core/throttling.py:27-34 | the 60 seconds from a moment keep the limit in every run exactly when the moment starts a clock minute |
| Throttle.TwiceTheLimitHappens | apps/core/throttling.py:77-90 | for every limit that many are admitted around the turn of a minute |
| Throttle.Middleware.Call | apps/core/throttling.py:62-90 | one request: the answer, and the counter kept true |
| Pagination.CrawlIsWholeList | apps/core/pagination.py:40-80 | following next from page 1 ends after the ceiling of count over size pages (one when empty) and yields the list exactly |
| Pagination.PageSlice | apps/core/pagination.py:53-56 | an inner page is full and the next starts where it ends; the last runs to the end |
| Pagination.CeilingDivision | apps/core/pagination.py:77 | the page count is the least that holds all items, and at least one |
| Pagination.ResolveIdempotent | apps/core/pagination.py:31-37 | clamping a clamped size changes nothing, so slice and links agree |
| Pagination.Resolve | apps/core/pagination.py:31-37 | the size asked for, or the default without one, clamped between one and the maximum |
| Pagination.DefaultSize | apps/core/pagination.py:52-80 | an answer without a size is the one for the configured default |
| Pagination.AnswerCounts | apps/core/pagination.py:52-80 | an answer counts the whole list, holds at most a page, and nothing behind the last page |
| Pagination.OverridesAgreeWithinCap | apps/core/pagination.py:52-76 | a slice taken under overriding bounds keeps its size in the links exactly when the configured cap admits it |
| Pagination.PreviousUndoesNext | apps/core/pagination.py:78-79 | the previous link of the next page leads back to the same answer |

## Left out

- The ORM, HTTP routing, admin pages, websockets, task queue, cache server, PDF and XLSX rendering and the mail request: I/O. What rendering and sending come to is an argument of the delivery call.
- Permission and site-scope decisions: boolean arguments.
- Audit rows, notifications and events other than those of issues and jobs.
- Concurrency: one call at a time, each transaction atomic; no crash between sending a report and saving its row.
- Metadata edits (issue, job and assignment texts, inspection templates) and the notes kept on assignments and programmes; deleting users, sites, shifts or templates.
- Where attendance records are returned, their order by names: they come in key order.
- Column limits other than title length, score digits and the clipped delivery error: text and escalation-level widths are not modelled.
- Seconds within a minute, the decimal context's precision before rounding, and letters and white space outside ASCII.
- Reading text into numbers and dates: a throttle rate comes split at its slash, a sheet cell with its date if it has one.
- A runtime change of the configured limits: lock days, rates and page sizes are constant over a run.
- Foreign keys of bulk attendance entries: a shift named in an entry is taken to exist.
- ReportDelivery.KeysAreWindows: years are printed with four digits in monthly keys, which some platforms do not do for years before 1000.
- Workforce.ProgrammesFollow: a programme that moves is not validated again, and its supervisor and notes are not modelled.
- Workforce.Registry.AssignToSite: the notes and the assigning user of a placement, which nothing here depends on.
- Throttle.Middleware.Call: the clock never goes back (an entry once expired is gone); paths outside the API and a disabled throttle bypass it and are not modelled, nor is eviction of live entries by a full cache.
- Suspending, activating and updating assignments, shift bindings, and stock, remuneration, roster, messaging and reporting-chain services: these would add easy members or other subjects.
