/**
  Issues and the jobs that work them: two coupled life cycles and the outbox of domain events
  they publish.

  Rows are never deleted by these services, so a table is the sequence of its rows and a row's
  key is its position.  `Desk` is the service; `Try` is one call on the tables as a value.
*/
module IssueJobs {
  import opened Wrappers
  import opened Texts
  import opened Digits

  datatype IssueStatus =
    | IssueOpen | UnderReview | IssueAssigned | IssueInProgress
    | IssueCompleted | IssueVerified | IssueClosed | IssueReopened

  datatype JobStatus = Open | Assigned | InProgress | Completed | Verified | Closed | Reopened

  datatype Issue = Issue(
    title: string,
    site: int,
    status: IssueStatus,
    closedAt: Option<int>,
    escalationLevel: nat,
    isEscalated: bool,
    description: string)

  /** A photo and whether it passes the checks on file type and size. */
  datatype Photo = Photo(name: string, contentType: string, size: nat, admissible: bool)

  datatype Job = Job(
    issue: Option<nat>,
    title: string,
    site: int,
    user: Option<int>,
    cleaner: Option<int>,
    status: JobStatus,
    notes: string,
    completedAt: Option<int>,
    verifiedBy: Option<int>,
    verifiedAt: Option<int>,
    closedAt: Option<int>,
    photo: Option<Photo>)

  datatype Event =
    | IssueCreated(issue: nat)
    | IssueEscalated(issue: nat, level: nat, reason: string)
    | JobAssigned(job: nat)
    | JobCompleted(job: nat)
    | JobVerified(job: nat)

  datatype State = State(issues: seq<Issue>, jobs: seq<Job>, outbox: seq<Event>)

  datatype Refusal =
    | NotClean | NotFound | InvalidStatus | IssueIsClosed | ReasonRequired
    | NotPermitted | AssigneeRequired | PhotoRequired | PhotoRefused | VerifyRequired

  const EMPTY := State([], [], [])

  predicate TitleOk(title: string) {
    0 < |title| <= 200
  }

  // ---- The coupling of the two tables ----

  function SetIssueAssigned(st: State, issue: Option<nat>): State {
    if issue.Some? && issue.value < |st.issues|
       && st.issues[issue.value].status in {IssueOpen, UnderReview, IssueReopened}
    then st.(issues := st.issues[issue.value := st.issues[issue.value].(status := IssueAssigned)])
    else st
  }

  predicate AllJobsClosed(jobs: seq<Job>, issue: nat) {
    forall j :: 0 <= j < |jobs| && jobs[j].issue == Some(issue) ==> jobs[j].status == Closed
  }

  predicate HasJob(jobs: seq<Job>, issue: nat) {
    exists j :: 0 <= j < |jobs| && jobs[j].issue == Some(issue)
  }

  function CloseIssueIfAllJobsClosed(st: State, issue: Option<nat>, now: int): State {
    if issue.Some? && issue.value < |st.issues| && st.issues[issue.value].status != IssueClosed
       && HasJob(st.jobs, issue.value) && AllJobsClosed(st.jobs, issue.value)
    then st.(issues := st.issues[issue.value := st.issues[issue.value].(status := IssueClosed, closedAt := Some(now))])
    else st
  }

  // ---- The calls ----

  datatype Call =
    | CreateIssue(title: string, description: string, site: int)
    | ReviewIssue(issue: nat, notes: string)
    | EscalateIssue(issue: nat, reason: string)
    | CreateJob(title: string, site: int, onIssue: Option<nat>, user: Option<int>, cleaner: Option<int>)
    | AssignJob(job: nat, permitted: bool, user: Option<int>, cleaner: Option<int>)
    | StartJob(job: nat)
    | CompleteJob(job: nat, permitted: bool, notes: string, photo: Option<Photo>, photoRequired: bool, now: int)
    | VerifyJob(job: nat, permitted: bool, actor: int, now: int)
    | CloseJob(job: nat, now: int)
    | ReopenJob(job: nat, reason: string)

  function WithJob(st: State, job: nat, row: Job, events: seq<Event>): State
    requires job < |st.jobs|
  {
    st.(jobs := st.jobs[job := row], outbox := st.outbox + events)
  }

  function ReviewLine(notes: string): string {
    if notes != "" then "Review: " + notes else "Under review"
  }

  function EscalationLine(level: nat, reason: string): string {
    "Escalated (" + Decimal(level) + "): " + reason
  }

  function Try(st: State, call: Call): Result<State, Refusal> {
    match call
    case CreateIssue(title, description, site) =>
      if !TitleOk(title) then Err(NotClean)
      else Ok(st.(issues := st.issues + [Issue(title, site, IssueOpen, None, 0, false, description)],
                  outbox := st.outbox + [IssueCreated(|st.issues|)]))
    case ReviewIssue(issue, notes) =>
      if issue >= |st.issues| then Err(NotFound)
      else if st.issues[issue].status !in {IssueOpen, IssueReopened} then Err(InvalidStatus)
      else
        var row := st.issues[issue];
        Ok(st.(issues := st.issues[issue := row.(status := UnderReview,
                                                 description := WithLine(row.description, ReviewLine(notes)))]))
    case EscalateIssue(issue, reason) =>
      if issue >= |st.issues| then Err(NotFound)
      else if st.issues[issue].status == IssueClosed then Err(IssueIsClosed)
      else if Blank(reason) then Err(ReasonRequired)
      else
        var row := st.issues[issue];
        var level := row.escalationLevel + 1;
        var line := EscalationLine(level, reason);
        Ok(st.(issues := st.issues[issue := row.(escalationLevel := level, isEscalated := true,
                                                 description := WithLine(row.description, line))],
               outbox := st.outbox + [IssueEscalated(issue, level, reason)]))
    case CreateJob(title, site, onIssue, user, cleaner) =>
      if onIssue.Some? && onIssue.value >= |st.issues| then Err(NotFound)
      else if !TitleOk(title) || (onIssue.Some? && st.issues[onIssue.value].site != site) then Err(NotClean)
      else
        var taken := user.Some? || cleaner.Some?;
        var row := Job(onIssue, title, site, user, cleaner, if taken then Assigned else Open, "",
                       None, None, None, None, None);
        var events := if taken then [JobAssigned(|st.jobs|)] else [];
        Ok(SetIssueAssigned(st.(jobs := st.jobs + [row], outbox := st.outbox + events), onIssue))
    case AssignJob(job, permitted, user, cleaner) =>
      if job >= |st.jobs| then Err(NotFound)
      else if !permitted then Err(NotPermitted)
      else if st.jobs[job].status !in {Open, Reopened} then Err(InvalidStatus)
      else if user.None? && cleaner.None? then Err(AssigneeRequired)
      else
        var row := st.jobs[job].(user := user, cleaner := cleaner, status := Assigned);
        Ok(SetIssueAssigned(WithJob(st, job, row, [JobAssigned(job)]), row.issue))
    case StartJob(job) =>
      if job >= |st.jobs| then Err(NotFound)
      else if st.jobs[job].status != Assigned then Err(InvalidStatus)
      else
        var row := st.jobs[job].(status := InProgress);
        Ok(SetIssueAssigned(WithJob(st, job, row, []), row.issue))
    case CompleteJob(job, permitted, notes, photo, photoRequired, now) =>
      if job >= |st.jobs| then Err(NotFound)
      else if !permitted then Err(NotPermitted)
      else if st.jobs[job].status !in {Assigned, InProgress} then Err(InvalidStatus)
      else if photo.None? && photoRequired then Err(PhotoRequired)
      else if photo.Some? && !photo.value.admissible then Err(PhotoRefused)
      else
        var row := st.jobs[job];
        var row' := row.(photo := if photo.Some? then photo else row.photo,
                         completedAt := Some(now), status := Completed,
                         notes := if notes != "" then WithLine(row.notes, notes) else row.notes);
        Ok(CloseIssueIfAllJobsClosed(WithJob(st, job, row', [JobCompleted(job)]), row.issue, now))
    case VerifyJob(job, permitted, actor, now) =>
      if job >= |st.jobs| then Err(NotFound)
      else if !permitted then Err(NotPermitted)
      else if st.jobs[job].status != Completed then Err(InvalidStatus)
      else Ok(WithJob(st, job,
                      st.jobs[job].(status := Verified, verifiedBy := Some(actor), verifiedAt := Some(now)),
                      [JobVerified(job)]))
    case CloseJob(job, now) =>
      if job >= |st.jobs| then Err(NotFound)
      else if st.jobs[job].status != Verified then Err(VerifyRequired)
      else
        var row := st.jobs[job].(status := Closed, closedAt := Some(now));
        Ok(CloseIssueIfAllJobsClosed(WithJob(st, job, row, []), row.issue, now))
    case ReopenJob(job, reason) =>
      if job >= |st.jobs| then Err(NotFound)
      else if st.jobs[job].status !in {Closed, Completed, Verified} then Err(InvalidStatus)
      else if Blank(reason) then Err(ReasonRequired)
      else
        var row := st.jobs[job];
        Ok(WithJob(st, job,
                   row.(status := Reopened, verifiedBy := None, verifiedAt := None, completedAt := None,
                        closedAt := None, notes := WithLine(row.notes, "Reopened: " + reason)),
                   []))
  }

  function Apply(st: State, call: Call): State {
    match Try(st, call)
    case Ok(st') => st'
    case Err(_) => st
  }

  function Run(st: State, calls: seq<Call>): State {
    if calls == [] then st else Apply(Run(st, calls[..|calls| - 1]), calls[|calls| - 1])
  }

  // ---- What every reachable state satisfies ----

  /** The columns of a job that its status decides. */
  predicate ColumnsFit(job: Job) {
    && (job.completedAt.Some? <==> job.status in {Completed, Verified, Closed})
    && (job.verifiedAt.Some? <==> job.status in {Verified, Closed})
    && (job.verifiedBy.Some? <==> job.status in {Verified, Closed})
    && (job.closedAt.Some? <==> job.status == Closed)
    && (job.status != Open ==> job.user.Some? || job.cleaner.Some?)
  }

  predicate JobFits(job: Job, issues: seq<Issue>) {
    && ColumnsFit(job)
    && (job.issue.Some? ==> job.issue.value < |issues| && issues[job.issue.value].site == job.site)
  }

  predicate IssueFits(st: State, i: nat)
    requires i < |st.issues|
  {
    var issue := st.issues[i];
    && issue.status in {IssueOpen, UnderReview, IssueAssigned, IssueClosed}
    && (issue.closedAt.Some? <==> issue.status == IssueClosed)
    && (HasJob(st.jobs, i) ==> issue.status in {IssueAssigned, IssueClosed})
    && (HasJob(st.jobs, i) && AllJobsClosed(st.jobs, i) ==> issue.status == IssueClosed)
    && issue.escalationLevel == Escalations(st.outbox, i)
    && (issue.isEscalated <==> issue.escalationLevel > 0)
  }

  ghost predicate Consistent(st: State) {
    && (forall j :: 0 <= j < |st.jobs| ==> JobFits(st.jobs[j], st.issues))
    && (forall i :: 0 <= i < |st.issues| ==> IssueFits(st, i))
    && (forall j :: 0 <= j < |st.jobs| ==> EventsFit(JobEvents(st.outbox, j), st.jobs[j].status))
    && (forall j :: |st.jobs| <= j ==> JobEvents(st.outbox, j) == [])
    && (forall i :: |st.issues| <= i ==> Escalations(st.outbox, i) == 0)
  }

  /** How often an issue was escalated, read off the outbox. */
  function Escalations(outbox: seq<Event>, issue: nat): nat {
    if outbox == [] then 0 else
      var e := outbox[|outbox| - 1];
      Escalations(outbox[..|outbox| - 1], issue) + if e.IssueEscalated? && e.issue == issue then 1 else 0
  }

  /** The events of one job, in order. */
  function JobEvents(outbox: seq<Event>, job: nat): seq<Event> {
    if outbox == [] then [] else
      var e := outbox[|outbox| - 1];
      JobEvents(outbox[..|outbox| - 1], job)
      + if (e.JobAssigned? || e.JobCompleted? || e.JobVerified?) && e.job == job then [e] else []
  }

  /** Whether a job's next event may be `e`, given those before it. */
  predicate MayFollow(events: seq<Event>, e: Event) {
    match e
    case JobAssigned(_) => events == [] || events[|events| - 1].JobCompleted? || events[|events| - 1].JobVerified?
    case JobCompleted(_) => events != [] && events[|events| - 1].JobAssigned?
    case JobVerified(_) => events != [] && events[|events| - 1].JobCompleted?
    case _ => false
  }

  predicate WellOrdered(events: seq<Event>) {
    events == []
    || (WellOrdered(events[..|events| - 1]) && MayFollow(events[..|events| - 1], events[|events| - 1]))
  }

  predicate EventsFit(events: seq<Event>, status: JobStatus) {
    && WellOrdered(events)
    && match status
       case Open => events == []
       case Assigned => events != [] && events[|events| - 1].JobAssigned?
       case InProgress => events != [] && events[|events| - 1].JobAssigned?
       case Completed => events != [] && events[|events| - 1].JobCompleted?
       case Verified => events != [] && events[|events| - 1].JobVerified?
       case Closed => events != [] && events[|events| - 1].JobVerified?
       case Reopened => events != [] && (events[|events| - 1].JobCompleted? || events[|events| - 1].JobVerified?)
  }

  /** The event a call publishes, if any. */
  function Published(st: State, call: Call): (events: seq<Event>)
    ensures Apply(st, call).outbox == st.outbox + events && |events| <= 1
  {
    Apply(st, call).outbox[|st.outbox|..]
  }

  predicate About(e: Event, job: nat) {
    (e.JobAssigned? || e.JobCompleted? || e.JobVerified?) && e.job == job
  }

  lemma EventsGrow(st: State, call: Call, job: nat)
    ensures var more := Published(st, call);
            JobEvents(Apply(st, call).outbox, job)
            == JobEvents(st.outbox, job) + if more != [] && About(more[0], job) then more else []
  {
    var more := Published(st, call);
    if more != [] {
      assert (st.outbox + more)[..|st.outbox|] == st.outbox;
    } else {
      assert st.outbox + [] == st.outbox;
    }
  }

  lemma EscalationsGrow(st: State, call: Call, issue: nat)
    ensures Escalations(Apply(st, call).outbox, issue)
            == Escalations(st.outbox, issue)
               + if call.EscalateIssue? && Try(st, call).Ok? && call.issue == issue then 1 else 0
  {
    var more := Published(st, call);
    if more != [] {
      assert (st.outbox + more)[..|st.outbox|] == st.outbox;
    } else {
      assert st.outbox + [] == st.outbox;
    }
  }

  /** The events about one job that a call publishes. */
  function PublishedFor(st: State, call: Call, job: nat): seq<Event> {
    var more := Published(st, call);
    if more != [] && About(more[0], job) then more else []
  }

  /** The job life cycle: which status moves a call can make, and what each one announces. */
  predicate Moves(before: JobStatus, events: seq<Event>, job: nat, after: JobStatus) {
    if events == [] then
      || after == before
      || (before == Assigned && after == InProgress)
      || (before == Verified && after == Closed)
      || (before in {Completed, Verified, Closed} && after == Reopened)
    else
      || (events == [JobAssigned(job)] && before in {Open, Reopened} && after == Assigned)
      || (events == [JobCompleted(job)] && before in {Assigned, InProgress} && after == Completed)
      || (events == [JobVerified(job)] && before == Completed && after == Verified)
  }

  lemma JobMoves(st: State, call: Call, j: nat)
    requires j < |st.jobs|
    ensures j < |Apply(st, call).jobs|
    ensures Moves(st.jobs[j].status, PublishedFor(st, call, j), j, Apply(st, call).jobs[j].status)
  {
  }

  lemma JobStarts(st: State, call: Call, j: nat)
    requires j >= |st.jobs|
    ensures var st' := Apply(st, call);
            PublishedFor(st, call, j)
            == if j < |st'.jobs| && st'.jobs[j].status == Assigned then [JobAssigned(j)] else []
    ensures j < |Apply(st, call).jobs| ==> Apply(st, call).jobs[j].status in {Open, Assigned}
  {
  }

  lemma ApplyKeepsEvents(st: State, call: Call, j: nat)
    requires Consistent(st)
    ensures var st' := Apply(st, call);
            if j < |st'.jobs| then EventsFit(JobEvents(st'.outbox, j), st'.jobs[j].status)
            else JobEvents(st'.outbox, j) == []
  {
    var st' := Apply(st, call);
    EventsGrow(st, call, j);
    var before, more := JobEvents(st.outbox, j), PublishedFor(st, call, j);
    if j < |st.jobs| {
      assert EventsFit(before, st.jobs[j].status);
      JobMoves(st, call, j);
      EventsFollowMoves(before, st.jobs[j].status, more, j, st'.jobs[j].status);
    } else {
      JobStarts(st, call, j);
      if j < |st'.jobs| {
        EventsFollowMoves([], Open, more, j, st'.jobs[j].status);
      }
    }
  }

  lemma EventsFollowMoves(events: seq<Event>, before: JobStatus, more: seq<Event>, job: nat, after: JobStatus)
    requires EventsFit(events, before) && Moves(before, more, job, after)
    ensures EventsFit(events + more, after)
  {
    if more == [] {
      assert events + more == events;
    } else {
      assert (events + more)[..|events|] == events;
    }
  }

  /** How far an issue has come; the statuses no service assigns rank with the one below them. */
  function Rank(status: IssueStatus): nat {
    match status
    case IssueOpen => 0
    case IssueReopened => 0
    case UnderReview => 1
    case IssueAssigned => 2
    case IssueInProgress => 2
    case IssueCompleted => 2
    case IssueVerified => 2
    case IssueClosed => 3
  }

  /** An issue only climbs; its closing date is written once, when it closes. */
  lemma IssueClimbs(st: State, call: Call, i: nat)
    requires i < |st.issues|
    ensures i < |Apply(st, call).issues|
    ensures var before, after := st.issues[i], Apply(st, call).issues[i];
            && Rank(before.status) <= Rank(after.status)
            && (after.status != before.status ==> after.status in {UnderReview, IssueAssigned, IssueClosed})
            && (before.status == IssueClosed ==> after == before)
            && (after.closedAt.Some? <==>
                  before.closedAt.Some? || (before.status != IssueClosed && after.status == IssueClosed))
  {
  }

  lemma IssueEscalates(st: State, call: Call, i: nat)
    requires i < |st.issues|
    ensures var before, after := st.issues[i], Apply(st, call).issues[i];
            if call.EscalateIssue? && Try(st, call).Ok? && call.issue == i
            then after.escalationLevel == before.escalationLevel + 1 && after.isEscalated
            else after.escalationLevel == before.escalationLevel && after.isEscalated == before.isEscalated
  {
  }

  lemma NewJobAssignsIssue(st: State, call: Call, i: nat)
    requires i < |st.issues| && !HasJob(st.jobs, i) && HasJob(Apply(st, call).jobs, i)
    requires st.issues[i].status in {IssueOpen, UnderReview, IssueAssigned, IssueClosed}
    ensures Apply(st, call).issues[i].status in {IssueAssigned, IssueClosed}
  {
    JobsKeepIssue(st, call);
    var st' := Apply(st, call);
    var h :| 0 <= h < |st'.jobs| && st'.jobs[h].issue == Some(i);
    assert h == |st.jobs| && call.CreateJob? && call.onIssue == Some(i);
  }

  lemma ApplyKeepsIssues(st: State, call: Call, i: nat)
    requires Consistent(st) && i < |st.issues|
    ensures i < |Apply(st, call).issues| && IssueFits(Apply(st, call), i)
  {
    var st' := Apply(st, call);
    assert IssueFits(st, i);
    EscalationsGrow(st, call, i);
    IssueClimbs(st, call, i);
    IssueEscalates(st, call, i);
    if HasJob(st'.jobs, i) {
      if !HasJob(st.jobs, i) {
        NewJobAssignsIssue(st, call, i);
      }
      if AllJobsClosed(st'.jobs, i) && st.issues[i].status != IssueClosed {
        LastJobCloses(st, call, i);
      }
    }
  }

  lemma NewIssueFits(st: State, call: Call, i: nat)
    requires Consistent(st) && i >= |st.issues|
    ensures var st' := Apply(st, call);
            if i < |st'.issues| then IssueFits(st', i) else Escalations(st'.outbox, i) == 0
  {
    var st' := Apply(st, call);
    EscalationsGrow(st, call, i);
    if i < |st'.issues| {
      NewIssueRow(st, call);
      forall j | 0 <= j < |st.jobs| ensures st.jobs[j].issue != Some(i) {
        assert JobFits(st.jobs[j], st.issues);
      }
    }
  }

  lemma NewIssueRow(st: State, call: Call)
    requires |Apply(st, call).issues| > |st.issues|
    ensures var st' := Apply(st, call);
            && call.CreateIssue? && st'.jobs == st.jobs && |st'.issues| == |st.issues| + 1
            && st'.issues[|st.issues|] == Issue(call.title, call.site, IssueOpen, None, 0, false, call.description)
  {
  }

  /** Jobs are only added, and each keeps the issue it was created for. */
  lemma JobsKeepIssue(st: State, call: Call)
    ensures var st' := Apply(st, call);
            && |st.issues| <= |st'.issues| && |st.jobs| <= |st'.jobs|
            && (forall j :: 0 <= j < |st.jobs| ==> st'.jobs[j].issue == st.jobs[j].issue)
            && (forall i :: 0 <= i < |st.issues| ==> st'.issues[i].site == st.issues[i].site)
            && (forall i: nat :: HasJob(st.jobs, i) ==> HasJob(st'.jobs, i))
  {
    var st' := Apply(st, call);
    assert forall j :: 0 <= j < |st.jobs| ==> st'.jobs[j].issue == st.jobs[j].issue;
    forall i: nat | HasJob(st.jobs, i) ensures HasJob(st'.jobs, i) {
      var j :| 0 <= j < |st.jobs| && st.jobs[j].issue == Some(i);
      assert st'.jobs[j].issue == Some(i);
    }
  }

  lemma OnlyCloseCloses(st: State, call: Call, k: nat)
    requires k < |st.jobs| && st.jobs[k].status != Closed && Apply(st, call).jobs[k].status == Closed
    ensures call.CloseJob? && call.job == k && Try(st, call).Ok?
  {
  }

  /** All of an open issue's jobs are closed only by closing the last of them, and that closes the issue. */
  lemma LastJobCloses(st: State, call: Call, i: nat)
    requires Consistent(st) && i < |st.issues| && st.issues[i].status != IssueClosed
    requires HasJob(Apply(st, call).jobs, i) && AllJobsClosed(Apply(st, call).jobs, i)
    ensures call.CloseJob? && Try(st, call).Ok? && st.jobs[call.job].issue == Some(i)
    ensures Apply(st, call).issues[i].status == IssueClosed
  {
    var st' := Apply(st, call);
    assert IssueFits(st, i);
    JobsKeepIssue(st, call);
    var h :| 0 <= h < |st'.jobs| && st'.jobs[h].issue == Some(i);
    assert st'.jobs[h].status == Closed;
    NewJobsAreNotClosed(st, call);
    assert HasJob(st.jobs, i);
    var k :| 0 <= k < |st.jobs| && st.jobs[k].issue == Some(i) && st.jobs[k].status != Closed;
    assert st'.jobs[k].issue == Some(i) && st'.jobs[k].status == Closed;
    OnlyCloseCloses(st, call, k);
    CloseOfLast(st, k, call.now, i);
  }

  lemma CloseOfLast(st: State, k: nat, now: int, i: nat)
    requires k < |st.jobs| && st.jobs[k].issue == Some(i) && Try(st, CloseJob(k, now)).Ok?
    requires i < |st.issues| && st.issues[i].status != IssueClosed
    requires AllJobsClosed(Apply(st, CloseJob(k, now)).jobs, i)
    ensures Apply(st, CloseJob(k, now)).issues[i].status == IssueClosed
  {
    var jobs := st.jobs[k := st.jobs[k].(status := Closed, closedAt := Some(now))];
    assert HasJob(jobs, i) by { assert jobs[k].issue == Some(i); }
  }

  lemma NewJobsAreNotClosed(st: State, call: Call)
    ensures forall j :: |st.jobs| <= j < |Apply(st, call).jobs| ==> Apply(st, call).jobs[j].status in {Open, Assigned}
  {
  }

  lemma ApplyKeepsJobs(st: State, call: Call, j: nat)
    requires Consistent(st)
    requires j < |Apply(st, call).jobs|
    ensures JobFits(Apply(st, call).jobs[j], Apply(st, call).issues)
  {
    JobsKeepIssue(st, call);
    if j < |st.jobs| {
      assert JobFits(st.jobs[j], st.issues);
      JobKeepsFit(st, call, j);
    } else {
      NewJobFits(st, call, j);
    }
  }

  lemma JobKeepsFit(st: State, call: Call, j: nat)
    requires j < |st.jobs| && ColumnsFit(st.jobs[j])
    ensures j < |Apply(st, call).jobs| && ColumnsFit(Apply(st, call).jobs[j])
    ensures Apply(st, call).jobs[j].site == st.jobs[j].site
  {
  }

  lemma NewJobFits(st: State, call: Call, j: nat)
    requires |st.jobs| <= j < |Apply(st, call).jobs|
    ensures var st' := Apply(st, call);
            && ColumnsFit(st'.jobs[j])
            && (st'.jobs[j].issue.Some? ==>
                  st'.jobs[j].issue.value < |st.issues|
                  && st.issues[st'.jobs[j].issue.value].site == st'.jobs[j].site)
  {
  }

  lemma ApplyKeepsConsistent(st: State, call: Call)
    requires Consistent(st)
    ensures Consistent(Apply(st, call))
  {
    forall j: nat
      ensures var st' := Apply(st, call);
              if j < |st'.jobs| then EventsFit(JobEvents(st'.outbox, j), st'.jobs[j].status)
              else JobEvents(st'.outbox, j) == []
    {
      ApplyKeepsEvents(st, call, j);
    }
    forall i: nat
      ensures var st' := Apply(st, call);
              if i < |st'.issues| then IssueFits(st', i) else Escalations(st'.outbox, i) == 0
    {
      if i < |st.issues| {
        ApplyKeepsIssues(st, call, i);
      } else {
        NewIssueFits(st, call, i);
      }
    }
    forall j | 0 <= j < |Apply(st, call).jobs|
      ensures JobFits(Apply(st, call).jobs[j], Apply(st, call).issues)
    {
      ApplyKeepsJobs(st, call, j);
    }
  }

  // ---- Whole runs ----

  lemma {:induction false} RunKeepsConsistent(calls: seq<Call>)
    ensures Consistent(Run(EMPTY, calls))
  {
    if calls != [] {
      RunKeepsConsistent(calls[..|calls| - 1]);
      ApplyKeepsConsistent(Run(EMPTY, calls[..|calls| - 1]), calls[|calls| - 1]);
    }
  }

  /** Time stamps, assignees and escalation counters agree with the status columns in every reachable state. */
  lemma ReachableJobsFit(calls: seq<Call>, j: nat)
    requires j < |Run(EMPTY, calls).jobs|
    ensures var st := Run(EMPTY, calls); JobFits(st.jobs[j], st.issues)
  {
    RunKeepsConsistent(calls);
  }

  /**
    An issue with jobs, all of them closed, is closed; no other issue status than the four
    assigned by the services occurs.
  */
  lemma ReachableIssuesFit(calls: seq<Call>, i: nat)
    requires i < |Run(EMPTY, calls).issues|
    ensures IssueFits(Run(EMPTY, calls), i)
  {
    RunKeepsConsistent(calls);
  }

  /** Each issue only climbs, and closes only in a step after which all its jobs are closed. */
  lemma IssueClosesWithItsJobs(calls: seq<Call>, call: Call, i: nat)
    requires i < |Run(EMPTY, calls).issues|
    ensures var st := Run(EMPTY, calls);
            var st' := Apply(st, call);
            && Rank(st.issues[i].status) <= Rank(st'.issues[i].status)
            && (st.issues[i].status == IssueClosed ==> st'.issues[i] == st.issues[i])
            && (st.issues[i].status != IssueClosed ==>
                  (st'.issues[i].status == IssueClosed
                   <==> HasJob(st'.jobs, i) && AllJobsClosed(st'.jobs, i)))
  {
    var st := Run(EMPTY, calls);
    RunKeepsConsistent(calls);
    IssueClimbs(st, call, i);
    if st.issues[i].status != IssueClosed {
      if Apply(st, call).issues[i].status == IssueClosed {
        ClosingCall(st, call, i);
      } else {
        ApplyKeepsConsistent(st, call);
        assert IssueFits(Apply(st, call), i);
      }
    }
  }

  lemma ClosingCall(st: State, call: Call, i: nat)
    requires i < |st.issues| && st.issues[i].status != IssueClosed
    requires Apply(st, call).issues[i].status == IssueClosed
    ensures HasJob(Apply(st, call).jobs, i) && AllJobsClosed(Apply(st, call).jobs, i)
  {
  }

  /** The converse does not persist: a job may be created on, or reopened under, a closed issue. */
  lemma ClosedIssueRegainsOpenJobs(st: State, call: Call, i: nat)
    requires Consistent(st) && i < |st.issues|
    requires st.issues[i].status == IssueClosed && AllJobsClosed(st.jobs, i)
    ensures !AllJobsClosed(Apply(st, call).jobs, i)
       <==> || (call.CreateJob? && call.onIssue == Some(i) && TitleOk(call.title) && call.site == st.issues[i].site)
            || (call.ReopenJob? && call.job < |st.jobs| && st.jobs[call.job].issue == Some(i) && !Blank(call.reason))
  {
    var st' := Apply(st, call);
    JobsKeepIssue(st, call);
    if Try(st, call).Ok? && call.CreateJob? && call.onIssue == Some(i) {
      assert st'.jobs[|st.jobs|].issue == Some(i) && st'.jobs[|st.jobs|].status != Closed;
    } else if Try(st, call).Ok? && call.ReopenJob? && st.jobs[call.job].issue == Some(i) {
      assert st'.jobs[call.job].issue == Some(i) && st'.jobs[call.job].status != Closed;
    } else {
      forall j | 0 <= j < |st'.jobs| && st'.jobs[j].issue == Some(i) ensures st'.jobs[j].status == Closed {
        if j < |st.jobs| && st'.jobs[j].status != Closed {
          ClosedJobLeavesByReopen(st, call, j);
        }
      }
    }
  }

  /** It happens, by either call: the issue stays CLOSED while its one job is reopened, or a new one added. */
  lemma ClosedIssueWithOpenJob(title: string, site: int, user: int, reason: string)
    requires TitleOk(title) && !Blank(reason)
    ensures var calls := [CreateIssue(title, "", site), CreateJob(title, site, Some(0), Some(user), None),
                          CompleteJob(0, true, "", None, false, 1), VerifyJob(0, true, user, 2), CloseJob(0, 3)];
            var st := Run(EMPTY, calls);
            && |st.issues| == 1 && st.issues[0].status == IssueClosed && AllJobsClosed(st.jobs, 0)
            && ClosedWithOpenJob(Run(EMPTY, calls + [ReopenJob(0, reason)]))
            && ClosedWithOpenJob(Run(EMPTY, calls + [CreateJob(title, site, Some(0), None, None)]))
  {
    var calls := [CreateIssue(title, "", site), CreateJob(title, site, Some(0), Some(user), None),
                  CompleteJob(0, true, "", None, false, 1), VerifyJob(0, true, user, 2), CloseJob(0, 3)];
    ClosedIssueRun(title, site, user);
    OneClosedJob(Run(EMPTY, calls), site);
    StaysClosedWithOpenJob(calls, ReopenJob(0, reason), title, site, reason);
    StaysClosedWithOpenJob(calls, CreateJob(title, site, Some(0), None, None), title, site, reason);
  }

  predicate ClosedWithOpenJob(st: State) {
    |st.issues| == 1 && st.issues[0].status == IssueClosed && !AllJobsClosed(st.jobs, 0)
  }

  lemma OneClosedJob(st: State, site: int)
    requires OneJob(st, site, Closed)
    ensures AllJobsClosed(st.jobs, 0)
  {
  }

  lemma StaysClosedWithOpenJob(calls: seq<Call>, call: Call, title: string, site: int, reason: string)
    requires call == ReopenJob(0, reason) || call == CreateJob(title, site, Some(0), None, None)
    requires TitleOk(title) && !Blank(reason)
    requires OneJob(Run(EMPTY, calls), site, Closed)
    ensures ClosedWithOpenJob(Run(EMPTY, calls + [call]))
  {
    RunOneMore(EMPTY, calls, call);
    OneClosedJob(Run(EMPTY, calls), site);
    RunKeepsConsistent(calls);
    ClosedIssueRegainsOpenJobs(Run(EMPTY, calls), call, 0);
    IssueClimbs(Run(EMPTY, calls), call, 0);
  }

  lemma ClosedIssueRun(title: string, site: int, user: int)
    requires TitleOk(title)
    ensures var calls := [CreateIssue(title, "", site), CreateJob(title, site, Some(0), Some(user), None),
                          CompleteJob(0, true, "", None, false, 1), VerifyJob(0, true, user, 2), CloseJob(0, 3)];
            OneJob(Run(EMPTY, calls), site, Closed)
  {
    var c1, c2 := CreateIssue(title, "", site), CreateJob(title, site, Some(0), Some(user), None);
    var c3, c4, c5 := CompleteJob(0, true, "", None, false, 1), VerifyJob(0, true, user, 2), CloseJob(0, 3);
    var two := [c1, c2];
    RunOfTwo(EMPTY, c1, c2);
    OpeningPair(title, site, user);
    RunOneMore(EMPTY, two, c3);
    CompletingOnly(Run(EMPTY, two), site);
    RunOneMore(EMPTY, two + [c3], c4);
    VerifyingOnly(Run(EMPTY, two + [c3]), site, user);
    RunOneMore(EMPTY, two + [c3] + [c4], c5);
    ClosingOnly(Run(EMPTY, two + [c3] + [c4]), site);
    assert two + [c3] + [c4] + [c5] == [c1, c2, c3, c4, c5];
  }

  lemma RunOfOne(st: State, call: Call)
    ensures Run(st, [call]) == Apply(st, call)
  {
    RunOneMore(st, [], call);
    assert [] + [call] == [call];
  }

  lemma RunOfTwo(st: State, c1: Call, c2: Call)
    ensures Run(st, [c1, c2]) == Apply(Apply(st, c1), c2)
  {
    RunOfOne(st, c1);
    RunOneMore(st, [c1], c2);
    assert [c1] + [c2] == [c1, c2];
  }

  lemma RunOneMore(st: State, calls: seq<Call>, call: Call)
    ensures Run(st, calls + [call]) == Apply(Run(st, calls), call)
  {
    assert (calls + [call])[..|calls|] == calls;
  }

  lemma OpeningPair(title: string, site: int, user: int)
    requires TitleOk(title)
    ensures OneJob(Apply(Apply(EMPTY, CreateIssue(title, "", site)), CreateJob(title, site, Some(0), Some(user), None)),
                   site, Assigned)
  {
  }

  /** An issue with one job, which completes, is verified and closes, and the issue with it. */
  predicate OneJob(st: State, site: int, status: JobStatus) {
    && |st.issues| == 1 && st.issues[0].site == site
    && (st.issues[0].status == if status == Closed then IssueClosed else IssueAssigned)
    && |st.jobs| == 1 && st.jobs[0].issue == Some(0) && st.jobs[0].status == status
  }

  lemma CompletingOnly(st: State, site: int)
    requires OneJob(st, site, Assigned)
    ensures OneJob(Apply(st, CompleteJob(0, true, "", None, false, 1)), site, Completed)
  {
    var job := st.jobs[0].(status := Completed, completedAt := Some(1));
    assert !AllJobsClosed(st.jobs[0 := job], 0) by { assert st.jobs[0 := job][0] == job; }
  }

  lemma VerifyingOnly(st: State, site: int, user: int)
    requires OneJob(st, site, Completed)
    ensures OneJob(Apply(st, VerifyJob(0, true, user, 2)), site, Verified)
  {
  }

  lemma ClosingOnly(st: State, site: int)
    requires OneJob(st, site, Verified)
    ensures OneJob(Apply(st, CloseJob(0, 3)), site, Closed)
  {
    var jobs := st.jobs[0 := st.jobs[0].(status := Closed, closedAt := Some(3))];
    assert HasJob(jobs, 0) by { assert jobs[0].issue == Some(0); }
  }

  lemma ClosedJobLeavesByReopen(st: State, call: Call, j: nat)
    requires j < |st.jobs| && st.jobs[j].status == Closed && Apply(st, call).jobs[j].status != Closed
    ensures Try(st, call).Ok? && call.ReopenJob? && call.job == j
  {
  }

  lemma {:induction false} WellOrderedAt(events: seq<Event>, k: nat)
    requires WellOrdered(events) && k < |events|
    ensures MayFollow(events[..k], events[k])
  {
    if k < |events| - 1 {
      WellOrderedAt(events[..|events| - 1], k);
      assert events[..|events| - 1][..k] == events[..k];
    }
  }

  /**
    Over every run, each completion event of a job directly follows an assignment event, each
    verification directly follows a completion, and each assignment is the job's first event or
    directly follows a completion or verification.
  */
  lemma RunOrdersJobEvents(calls: seq<Call>, job: nat, k: nat)
    requires k < |JobEvents(Run(EMPTY, calls).outbox, job)|
    ensures var events := JobEvents(Run(EMPTY, calls).outbox, job); MayFollow(events[..k], events[k])
  {
    RunKeepsConsistent(calls);
    ConsistentOrder(Run(EMPTY, calls), job);
    WellOrderedAt(JobEvents(Run(EMPTY, calls).outbox, job), k);
  }

  lemma ConsistentOrder(st: State, job: nat)
    requires Consistent(st)
    ensures WellOrdered(JobEvents(st.outbox, job))
  {
    assert job >= |st.jobs| ==> JobEvents(st.outbox, job) == [];
  }

  ghost predicate Prefix(a: string, b: string) {
    a <= b
  }

  /** Notes are never lost: what they say at any time is a prefix of what they say later. */
  lemma {:induction false} RunKeepsNotes(st: State, calls: seq<Call>, j: nat)
    requires j < |st.jobs|
    ensures j < |Run(st, calls).jobs| && Prefix(st.jobs[j].notes, Run(st, calls).jobs[j].notes)
  {
    if calls != [] {
      var init := calls[..|calls| - 1];
      RunKeepsNotes(st, init, j);
      NotesGrow(Run(st, init), calls[|calls| - 1], j);
    }
  }

  lemma NotesGrow(st: State, call: Call, j: nat)
    requires j < |st.jobs|
    ensures j < |Apply(st, call).jobs| && Prefix(st.jobs[j].notes, Apply(st, call).jobs[j].notes)
  {
  }

  /** Nor is what an issue's description says, as long as only these calls, and no metadata edit, write it. */
  lemma {:induction false} RunKeepsDescriptions(st: State, calls: seq<Call>, i: nat)
    requires i < |st.issues|
    ensures i < |Run(st, calls).issues| && Prefix(st.issues[i].description, Run(st, calls).issues[i].description)
  {
    if calls != [] {
      var init := calls[..|calls| - 1];
      RunKeepsDescriptions(st, init, i);
      DescriptionGrows(Run(st, init), calls[|calls| - 1], i);
    }
  }

  lemma DescriptionGrows(st: State, call: Call, i: nat)
    requires i < |st.issues|
    ensures i < |Apply(st, call).issues| && Prefix(st.issues[i].description, Apply(st, call).issues[i].description)
  {
  }

  // ---- What each call answers, column by column ----

  ghost predicate OnlyIssue(before: State, after: State, issue: nat) {
    && |after.issues| == |before.issues| && after.jobs == before.jobs && issue < |before.issues|
    && (forall i :: 0 <= i < |before.issues| && i != issue ==> after.issues[i] == before.issues[i])
  }

  ghost predicate OnlyJob(before: State, after: State, job: nat) {
    && |after.jobs| == |before.jobs| && job < |before.jobs|
    && (forall j :: 0 <= j < |before.jobs| && j != job ==> after.jobs[j] == before.jobs[j])
  }

  /** The job's issue, if it had not got that far, is ASSIGNED; no other issue and no other column changes. */
  ghost predicate IssueAdvanced(before: seq<Issue>, issue: Option<nat>, after: seq<Issue>) {
    && |after| == |before|
    && (forall i: nat :: i < |before| ==>
          after[i] == if issue == Some(i) && before[i].status in {IssueOpen, UnderReview, IssueReopened}
                      then before[i].(status := IssueAssigned) else before[i])
  }

  /** The job's issue is closed if all its jobs now are; no other issue and no other column changes. */
  ghost predicate IssueClosedWhenDone(before: seq<Issue>, jobs: seq<Job>, issue: Option<nat>, now: int,
                                      after: seq<Issue>) {
    && |after| == |before|
    && (forall i: nat :: i < |before| ==>
          after[i] == if issue == Some(i) && before[i].status != IssueClosed
                         && (exists j :: 0 <= j < |jobs| && jobs[j].issue == Some(i))
                         && (forall j :: 0 <= j < |jobs| && jobs[j].issue == Some(i) ==> jobs[j].status == Closed)
                      then before[i].(status := IssueClosed, closedAt := Some(now)) else before[i])
  }

  ghost predicate IssueRaised(before: State, title: string, description: string, site: int, after: State) {
    && 1 <= |title| <= 200
    && after.issues == before.issues + [Issue(title, site, IssueOpen, None, 0, false, description)]
    && after.jobs == before.jobs && after.outbox == before.outbox + [IssueCreated(|before.issues|)]
  }

  ghost predicate MovedToReview(before: State, issue: nat, notes: string, after: State) {
    && OnlyIssue(before, after, issue) && after.outbox == before.outbox
    && var row, row' := before.issues[issue], after.issues[issue];
       && row.status in {IssueOpen, IssueReopened}
       && Appended(row.description, if notes == "" then "Under review" else "Review: " + notes, row'.description)
       && row' == row.(status := UnderReview, description := row'.description)
  }

  ghost predicate Escalated(before: State, issue: nat, reason: string, after: State) {
    && OnlyIssue(before, after, issue) && HasText(reason)
    && var row, row' := before.issues[issue], after.issues[issue];
       && row.status != IssueClosed
       && row'.escalationLevel == row.escalationLevel + 1 && row'.isEscalated
       && Appended(row.description, "Escalated (" + Decimal(row'.escalationLevel) + "): " + reason, row'.description)
       && row' == row.(escalationLevel := row'.escalationLevel, isEscalated := true, description := row'.description)
       && after.outbox == before.outbox + [IssueEscalated(issue, row'.escalationLevel, reason)]
  }

  ghost predicate JobAdded(before: State, title: string, site: int, issue: Option<nat>, user: Option<int>,
                           cleaner: Option<int>, after: State) {
    && 1 <= |title| <= 200 && (issue.Some? ==> issue.value < |before.issues| && before.issues[issue.value].site == site)
    && IssueAdvanced(before.issues, issue, after.issues)
    && var taken := user != None || cleaner != None;
       && after.jobs == before.jobs + [Job(issue, title, site, user, cleaner, if taken then Assigned else Open, "",
                                           None, None, None, None, None)]
       && after.outbox == before.outbox + if taken then [JobAssigned(|before.jobs|)] else []
  }

  ghost predicate JobTaken(before: State, job: nat, user: Option<int>, cleaner: Option<int>, after: State) {
    && OnlyJob(before, after, job) && (user != None || cleaner != None)
    && before.jobs[job].status in {Open, Reopened}
    && after.jobs[job] == before.jobs[job].(user := user, cleaner := cleaner, status := Assigned)
    && after.outbox == before.outbox + [JobAssigned(job)]
    && IssueAdvanced(before.issues, before.jobs[job].issue, after.issues)
  }

  ghost predicate Started(before: State, job: nat, after: State) {
    && OnlyJob(before, after, job) && before.jobs[job].status == Assigned
    && after.jobs[job] == before.jobs[job].(status := InProgress)
    && after.outbox == before.outbox
    && IssueAdvanced(before.issues, before.jobs[job].issue, after.issues)
  }

  /** The photo given is stored, or the old one kept; notes given stand behind the old ones; nothing else changes. */
  ghost predicate Finished(before: State, job: nat, notes: string, photo: Option<Photo>, photoRequired: bool, now: int,
                           after: State) {
    && OnlyJob(before, after, job)
    && (photo == None ==> !photoRequired) && (photo.Some? ==> photo.value.admissible)
    && var row, row' := before.jobs[job], after.jobs[job];
       && row.status in {Assigned, InProgress}
       && row'.photo == (if photo == None then row.photo else photo)
       && (if notes == "" then row'.notes == row.notes else Appended(row.notes, notes, row'.notes))
       && row' == row.(status := Completed, completedAt := Some(now), photo := row'.photo, notes := row'.notes)
       && after.outbox == before.outbox + [JobCompleted(job)]
       && IssueClosedWhenDone(before.issues, after.jobs, row.issue, now, after.issues)
  }

  ghost predicate Confirmed(before: State, job: nat, actor: int, now: int, after: State) {
    && OnlyJob(before, after, job) && before.jobs[job].status == Completed
    && after.jobs[job] == before.jobs[job].(status := Verified, verifiedBy := Some(actor), verifiedAt := Some(now))
    && after.outbox == before.outbox + [JobVerified(job)] && after.issues == before.issues
  }

  ghost predicate ShutDown(before: State, job: nat, now: int, after: State) {
    && OnlyJob(before, after, job) && before.jobs[job].status == Verified
    && after.jobs[job] == before.jobs[job].(status := Closed, closedAt := Some(now))
    && after.outbox == before.outbox
    && IssueClosedWhenDone(before.issues, after.jobs, before.jobs[job].issue, now, after.issues)
  }

  ghost predicate TakenUpAgain(before: State, job: nat, reason: string, after: State) {
    && OnlyJob(before, after, job) && HasText(reason)
    && after.issues == before.issues && after.outbox == before.outbox
    && var row, row' := before.jobs[job], after.jobs[job];
       && row.status in {Closed, Completed, Verified}
       && Appended(row.notes, "Reopened: " + reason, row'.notes)
       && row' == row.(status := Reopened, verifiedBy := None, verifiedAt := None, completedAt := None,
                       closedAt := None, notes := row'.notes)
  }

  /** What a call leaves behind when it is accepted. */
  ghost predicate Done(before: State, call: Call, after: State) {
    match call
    case CreateIssue(title, description, site) => IssueRaised(before, title, description, site, after)
    case ReviewIssue(issue, notes) => MovedToReview(before, issue, notes, after)
    case EscalateIssue(issue, reason) => Escalated(before, issue, reason, after)
    case CreateJob(title, site, issue, user, cleaner) => JobAdded(before, title, site, issue, user, cleaner, after)
    case AssignJob(job, permitted, user, cleaner) => permitted && JobTaken(before, job, user, cleaner, after)
    case StartJob(job) => Started(before, job, after)
    case CompleteJob(job, permitted, notes, photo, photoRequired, now) =>
      permitted && Finished(before, job, notes, photo, photoRequired, now, after)
    case VerifyJob(job, permitted, actor, now) => permitted && Confirmed(before, job, actor, now, after)
    case CloseJob(job, now) => ShutDown(before, job, now, after)
    case ReopenJob(job, reason) => TakenUpAgain(before, job, reason, after)
  }

  lemma AdvancesAssigned(st: State, issue: Option<nat>)
    ensures IssueAdvanced(st.issues, issue, SetIssueAssigned(st, issue).issues)
    ensures SetIssueAssigned(st, issue).jobs == st.jobs && SetIssueAssigned(st, issue).outbox == st.outbox
  {
  }

  lemma ClosesWhenDone(st: State, issue: Option<nat>, now: int)
    ensures var st' := CloseIssueIfAllJobsClosed(st, issue, now);
            && IssueClosedWhenDone(st.issues, st.jobs, issue, now, st'.issues)
            && st'.jobs == st.jobs && st'.outbox == st.outbox
  {
  }

  lemma CreationAnswers(st: State, call: Call)
    requires call.CreateIssue?
    ensures if Try(st, call).Ok? then Done(st, call, Apply(st, call)) else Apply(st, call) == st
  {
  }

  lemma ReviewAnswers(st: State, call: Call)
    requires call.ReviewIssue?
    ensures if Try(st, call).Ok? then Done(st, call, Apply(st, call)) else Apply(st, call) == st
  {
    if Try(st, call).Ok? {
      WithLineAppends(st.issues[call.issue].description, ReviewLine(call.notes));
    }
  }

  lemma EscalationAnswers(st: State, call: Call)
    requires call.EscalateIssue?
    ensures if Try(st, call).Ok? then Done(st, call, Apply(st, call)) else Apply(st, call) == st
  {
    if Try(st, call).Ok? {
      BlankMeansNoText(call.reason);
      var row := st.issues[call.issue];
      WithLineAppends(row.description, EscalationLine(row.escalationLevel + 1, call.reason));
    }
  }

  lemma NewJobAnswers(st: State, call: Call)
    requires call.CreateJob?
    ensures if Try(st, call).Ok? then Done(st, call, Apply(st, call)) else Apply(st, call) == st
  {
    AdvancesAssigned(st, call.onIssue);
  }

  lemma AssignmentAnswers(st: State, call: Call)
    requires call.AssignJob?
    ensures if Try(st, call).Ok? then Done(st, call, Apply(st, call)) else Apply(st, call) == st
  {
    if Try(st, call).Ok? {
      AdvancesAssigned(st, st.jobs[call.job].issue);
    }
  }

  lemma StartAnswers(st: State, call: Call)
    requires call.StartJob?
    ensures if Try(st, call).Ok? then Done(st, call, Apply(st, call)) else Apply(st, call) == st
  {
    if Try(st, call).Ok? {
      AdvancesAssigned(st, st.jobs[call.job].issue);
    }
  }

  lemma CompletionAnswers(st: State, call: Call)
    requires call.CompleteJob?
    ensures if Try(st, call).Ok? then Done(st, call, Apply(st, call)) else Apply(st, call) == st
  {
    if Try(st, call).Ok? {
      var row, row' := st.jobs[call.job], CompletedRow(st.jobs[call.job], call);
      WithLineAppends(row.notes, call.notes);
      var worked := WithJob(st, call.job, row', [JobCompleted(call.job)]);
      assert Apply(st, call) == CloseIssueIfAllJobsClosed(worked, row.issue, call.now);
      ClosesWhenDone(worked, row.issue, call.now);
    }
  }

  function CompletedRow(row: Job, call: Call): Job
    requires call.CompleteJob?
  {
    row.(photo := if call.photo.Some? then call.photo else row.photo,
         completedAt := Some(call.now), status := Completed,
         notes := if call.notes != "" then WithLine(row.notes, call.notes) else row.notes)
  }

  lemma VerificationAnswers(st: State, call: Call)
    requires call.VerifyJob?
    ensures if Try(st, call).Ok? then Done(st, call, Apply(st, call)) else Apply(st, call) == st
  {
  }

  lemma ClosingAnswers(st: State, call: Call)
    requires call.CloseJob?
    ensures if Try(st, call).Ok? then Done(st, call, Apply(st, call)) else Apply(st, call) == st
  {
    if Try(st, call).Ok? {
      ClosesWhenDone(WithJob(st, call.job, Apply(st, call).jobs[call.job], []), st.jobs[call.job].issue, call.now);
    }
  }

  lemma ReopeningAnswers(st: State, call: Call)
    requires call.ReopenJob?
    ensures if Try(st, call).Ok? then Done(st, call, Apply(st, call)) else Apply(st, call) == st
  {
    if Try(st, call).Ok? {
      BlankMeansNoText(call.reason);
      var row, line := st.jobs[call.job], "Reopened: " + call.reason;
      var row' := ReopenedRow(row, line);
      assert Apply(st, call) == WithJob(st, call.job, row', []);
      ReopenedRowFits(row, line);
      ReopenedOnly(st, call, line, row');
    }
  }

  function ReopenedRow(row: Job, line: string): Job {
    row.(status := Reopened, verifiedBy := None, verifiedAt := None, completedAt := None, closedAt := None,
         notes := WithLine(row.notes, line))
  }

  predicate IsReopened(row: Job, line: string, row': Job) {
    && Appended(row.notes, line, row'.notes)
    && row' == row.(status := Reopened, verifiedBy := None, verifiedAt := None, completedAt := None,
                    closedAt := None, notes := row'.notes)
  }

  lemma ReopenedRowFits(row: Job, line: string)
    ensures IsReopened(row, line, ReopenedRow(row, line))
  {
    WithLineAppends(row.notes, line);
  }

  lemma ReopenedOnly(st: State, call: Call, line: string, row': Job)
    requires call.ReopenJob? && call.job < |st.jobs| && HasText(call.reason) && line == "Reopened: " + call.reason
    requires st.jobs[call.job].status in {Closed, Completed, Verified} && IsReopened(st.jobs[call.job], line, row')
    ensures TakenUpAgain(st, call.job, call.reason, WithJob(st, call.job, row', []))
  {
    assert st.outbox + [] == st.outbox;
  }

  /** An accepted call leaves exactly what its columns say; a refused one leaves the tables as they were. */
  lemma CallAnswers(st: State, call: Call)
    ensures if Try(st, call).Ok? then Done(st, call, Apply(st, call)) else Apply(st, call) == st
  {
    match call
    case CreateIssue(_, _, _) => CreationAnswers(st, call);
    case ReviewIssue(_, _) => ReviewAnswers(st, call);
    case EscalateIssue(_, _) => EscalationAnswers(st, call);
    case CreateJob(_, _, _, _, _) => NewJobAnswers(st, call);
    case AssignJob(_, _, _, _) => AssignmentAnswers(st, call);
    case StartJob(_) => StartAnswers(st, call);
    case CompleteJob(_, _, _, _, _, _) => CompletionAnswers(st, call);
    case VerifyJob(_, _, _, _) => VerificationAnswers(st, call);
    case CloseJob(_, _) => ClosingAnswers(st, call);
    case ReopenJob(_, _) => ReopeningAnswers(st, call);
  }

  /** What the source asks of a call, in the tables' columns. */
  ghost predicate Admissible(st: State, call: Call) {
    match call
    case CreateIssue(title, _, _) => 1 <= |title| <= 200
    case ReviewIssue(issue, _) => issue < |st.issues| && st.issues[issue].status in {IssueOpen, IssueReopened}
    case EscalateIssue(issue, reason) =>
      issue < |st.issues| && st.issues[issue].status != IssueClosed && HasText(reason)
    case CreateJob(title, site, issue, _, _) =>
      && 1 <= |title| <= 200
      && (issue.Some? ==> issue.value < |st.issues| && st.issues[issue.value].site == site)
    case AssignJob(job, permitted, user, cleaner) =>
      permitted && job < |st.jobs| && st.jobs[job].status in {Open, Reopened} && (user != None || cleaner != None)
    case StartJob(job) => job < |st.jobs| && st.jobs[job].status == Assigned
    case CompleteJob(job, permitted, _, photo, photoRequired, _) =>
      && permitted && job < |st.jobs| && st.jobs[job].status in {Assigned, InProgress}
      && (if photo == None then !photoRequired else photo.value.admissible)
    case VerifyJob(job, permitted, _, _) => permitted && job < |st.jobs| && st.jobs[job].status == Completed
    case CloseJob(job, _) => job < |st.jobs| && st.jobs[job].status == Verified
    case ReopenJob(job, reason) =>
      job < |st.jobs| && st.jobs[job].status in {Closed, Completed, Verified} && HasText(reason)
  }

  /** Nothing admissible is refused. */
  lemma AcceptsAdmissible(st: State, call: Call)
    ensures Try(st, call).Ok? <==> Admissible(st, call)
  {
    if call.EscalateIssue? || call.ReopenJob? {
      BlankMeansNoText(call.reason);
    }
  }

  /** The row a call is about does not exist. */
  predicate RowMissing(st: State, call: Call) {
    match call
    case CreateIssue(_, _, _) => false
    case ReviewIssue(issue, _) => issue >= |st.issues|
    case EscalateIssue(issue, _) => issue >= |st.issues|
    case CreateJob(_, _, issue, _, _) => issue.Some? && issue.value >= |st.issues|
    case _ => call.job >= |st.jobs|
  }

  predicate Unpermitted(call: Call) {
    (call.AssignJob? || call.CompleteJob? || call.VerifyJob?) && !call.permitted
  }

  /** The statuses in which a call on a job finds it in order. */
  function Fitting(call: Call): set<JobStatus>
    requires !call.CreateIssue? && !call.ReviewIssue? && !call.EscalateIssue? && !call.CreateJob?
  {
    match call
    case AssignJob(_, _, _, _) => {Open, Reopened}
    case StartJob(_) => {Assigned}
    case CompleteJob(_, _, _, _, _, _) => {Assigned, InProgress}
    case VerifyJob(_, _, _, _) => {Completed}
    case CloseJob(_, _) => {Verified}
    case ReopenJob(_, _) => {Closed, Completed, Verified}
  }

  predicate StatusFits(st: State, call: Call)
    requires !RowMissing(st, call)
  {
    match call
    case CreateIssue(_, _, _) => true
    case ReviewIssue(issue, _) => st.issues[issue].status in {IssueOpen, IssueReopened}
    case EscalateIssue(issue, _) => st.issues[issue].status != IssueClosed
    case CreateJob(_, _, _, _, _) => true
    case _ => st.jobs[call.job].status in Fitting(call)
  }

  /** What a refusal means: the first thing that was wrong. */
  ghost predicate RefusedFor(st: State, call: Call, error: Refusal) {
    match error
    case NotFound => RowMissing(st, call)
    case NotPermitted => !RowMissing(st, call) && Unpermitted(call)
    case InvalidStatus =>
      !RowMissing(st, call) && !Unpermitted(call) && !StatusFits(st, call) && !call.EscalateIssue? && !call.CloseJob?
    case IssueIsClosed => call.EscalateIssue? && !RowMissing(st, call) && !StatusFits(st, call)
    case VerifyRequired => call.CloseJob? && !RowMissing(st, call) && !StatusFits(st, call)
    case ReasonRequired =>
      && (call.EscalateIssue? || call.ReopenJob?) && !RowMissing(st, call) && StatusFits(st, call)
      && !HasText(call.reason)
    case AssigneeRequired => call.AssignJob? && !RowMissing(st, call) && call.user == None && call.cleaner == None
    case PhotoRequired => call.CompleteJob? && !RowMissing(st, call) && call.photo == None && call.photoRequired
    case PhotoRefused => call.CompleteJob? && call.photo.Some? && !call.photo.value.admissible
    case NotClean =>
      || ((call.CreateIssue? || call.CreateJob?) && !(1 <= |call.title| <= 200))
      || (call.CreateJob? && call.onIssue.Some? && !RowMissing(st, call)
          && st.issues[call.onIssue.value].site != call.site)
  }

  lemma RefusalTells(st: State, call: Call)
    requires Try(st, call).Err?
    ensures RefusedFor(st, call, Try(st, call).error)
  {
    if call.EscalateIssue? || call.ReopenJob? {
      BlankMeansNoText(call.reason);
    }
  }

  // ---- The steps of one job ----

  datatype Step = Created | AssignStep | StartStep | CompleteStep | VerifyStep | CloseStep | ReopenStep

  /** What a call that was accepted did to one job. */
  function StepsOf(st: State, call: Call, job: nat): seq<Step> {
    if Try(st, call).Err? then []
    else match call
      case CreateJob(_, _, _, _, _) => if job == |st.jobs| then [Created] else []
      case AssignJob(j, _, _, _) => if j == job then [AssignStep] else []
      case StartJob(j) => if j == job then [StartStep] else []
      case CompleteJob(j, _, _, _, _, _) => if j == job then [CompleteStep] else []
      case VerifyJob(j, _, _, _) => if j == job then [VerifyStep] else []
      case CloseJob(j, _) => if j == job then [CloseStep] else []
      case ReopenJob(j, _) => if j == job then [ReopenStep] else []
      case _ => []
  }

  /** The life of one job through a run. */
  function Life(calls: seq<Call>, job: nat): seq<Step> {
    if calls == [] then [] else
      var init := calls[..|calls| - 1];
      Life(init, job) + StepsOf(Run(EMPTY, init), calls[|calls| - 1], job)
  }

  /** The steps of the current cycle: those since the job was created or last reopened. */
  function Cycle(life: seq<Step>): seq<Step> {
    if life == [] || Opening(life[|life| - 1]) then []
    else Cycle(life[..|life| - 1]) + [life[|life| - 1]]
  }

  predicate Opening(step: Step) {
    step == Created || step == ReopenStep
  }

  /** The cycle is the longest end of the life that holds no creation and no reopening. */
  lemma {:induction false} CycleIsSinceLastOpening(life: seq<Step>)
    ensures var cycle := Cycle(life);
            && |cycle| <= |life| && cycle == life[|life| - |cycle|..]
            && (forall k :: 0 <= k < |cycle| ==> !Opening(cycle[k]))
            && (|cycle| < |life| ==> Opening(life[|life| - |cycle| - 1]))
  {
    if life != [] && !Opening(life[|life| - 1]) {
      var init, last := life[..|life| - 1], life[|life| - 1];
      CycleIsSinceLastOpening(init);
      var cycle := Cycle(init);
      assert Cycle(life) == cycle + [last];
      assert life[|init| - |cycle|..] == init[|init| - |cycle|..] + [last];
      assert |cycle| < |init| ==> life[|init| - |cycle| - 1] == init[|init| - |cycle| - 1];
    }
  }

  /** How a cycle ends, once its job is completed, verified or closed. */
  function Tail(status: JobStatus): seq<Step> {
    match status
    case Completed => [CompleteStep]
    case Verified => [CompleteStep, VerifyStep]
    case Closed => [CompleteStep, VerifyStep, CloseStep]
    case _ => []
  }

  /** A cycle is some work, followed by as much of complete-verify-close as the status tells. */
  predicate CycleFits(cycle: seq<Step>, status: JobStatus) {
    var work := |cycle| - |Tail(status)|;
    && work >= 0
    && Working(cycle[..work])
    && cycle[work..] == Tail(status)
    && (status in {Open, Reopened} ==> cycle == [])
  }

  predicate Working(cycle: seq<Step>) {
    forall k :: 0 <= k < |cycle| ==> cycle[k] in {AssignStep, StartStep}
  }

  predicate StepMoves(before: JobStatus, steps: seq<Step>, after: JobStatus) {
    if steps == [] then after == before
    else if |steps| != 1 then false
    else match steps[0]
      case Created => false
      case AssignStep => before in {Open, Reopened} && after == Assigned
      case StartStep => before == Assigned && after == InProgress
      case CompleteStep => before in {Assigned, InProgress} && after == Completed
      case VerifyStep => before == Completed && after == Verified
      case CloseStep => before == Verified && after == Closed
      case ReopenStep => before in {Completed, Verified, Closed} && after == Reopened
  }

  lemma StepsMove(st: State, call: Call, j: nat)
    requires j < |st.jobs|
    ensures j < |Apply(st, call).jobs|
    ensures StepMoves(st.jobs[j].status, StepsOf(st, call, j), Apply(st, call).jobs[j].status)
  {
  }

  lemma StepsStart(st: State, call: Call, j: nat)
    requires j >= |st.jobs|
    ensures var st' := Apply(st, call);
            StepsOf(st, call, j) == if j < |st'.jobs| then [Created] else []
    ensures j < |Apply(st, call).jobs| ==> Apply(st, call).jobs[j].status in {Open, Assigned}
  {
  }

  lemma CycleStep(life: seq<Step>, step: Step)
    ensures Cycle(life + [step]) == if Opening(step) then [] else Cycle(life) + [step]
  {
    assert (life + [step])[..|life|] == life;
  }

  lemma CycleGrows(life: seq<Step>, before: JobStatus, step: Step, after: JobStatus)
    requires CycleFits(Cycle(life), before) && StepMoves(before, [step], after)
    ensures CycleFits(Cycle(life + [step]), after)
  {
    CycleStep(life, step);
    if step == ReopenStep {
      FreshCycle(after);
    } else {
      CycleExtends(Cycle(life), before, [step], after);
    }
  }

  lemma FreshCycle(status: JobStatus)
    requires status == Reopened
    ensures CycleFits([], status)
  {
  }

  lemma CycleExtends(cycle: seq<Step>, before: JobStatus, steps: seq<Step>, after: JobStatus)
    requires CycleFits(cycle, before) && StepMoves(before, steps, after)
    requires |steps| == 1 && steps[0] != ReopenStep
    ensures CycleFits(cycle + steps, after)
  {
    if after in {Completed, Verified, Closed} {
      TailGrows(before, steps, after);
      Cut(cycle, steps, |cycle| - |Tail(before)|);
    } else {
      assert Tail(before) == [] && cycle[..|cycle|] == cycle;
      WorkGrows(cycle, steps[0]);
      assert steps == [steps[0]];
      WorkFits(cycle + steps, after);
    }
  }

  lemma WorkGrows(cycle: seq<Step>, step: Step)
    requires Working(cycle) && step in {AssignStep, StartStep}
    ensures Working(cycle + [step])
  {
  }

  lemma WorkFits(cycle: seq<Step>, status: JobStatus)
    requires Working(cycle) && status in {Assigned, InProgress}
    ensures CycleFits(cycle, status)
  {
    assert cycle[..|cycle|] == cycle;
  }

  lemma Cut(a: seq<Step>, b: seq<Step>, n: nat)
    requires n <= |a|
    ensures (a + b)[..n] == a[..n] && (a + b)[n..] == a[n..] + b
    ensures n == |a| ==> a[..n] == a && a[n..] == []
  {
  }

  lemma TailGrows(before: JobStatus, steps: seq<Step>, after: JobStatus)
    requires StepMoves(before, steps, after) && |steps| == 1 && after in {Completed, Verified, Closed}
    ensures Tail(after) == Tail(before) + steps
  {
    assert steps == [steps[0]];
  }

  lemma LifeStep(st: State, call: Call, life: seq<Step>, j: nat)
    requires j < |st.jobs| && CycleFits(Cycle(life), st.jobs[j].status)
    ensures j < |Apply(st, call).jobs|
    ensures CycleFits(Cycle(life + StepsOf(st, call, j)), Apply(st, call).jobs[j].status)
  {
    StepsMove(st, call, j);
    var steps := StepsOf(st, call, j);
    if steps == [] {
      assert life + steps == life;
    } else {
      assert steps == [steps[0]];
      CycleGrows(life, st.jobs[j].status, steps[0], Apply(st, call).jobs[j].status);
    }
  }

  lemma LifeBegins(st: State, call: Call, j: nat)
    requires j >= |st.jobs|
    ensures var st', steps := Apply(st, call), StepsOf(st, call, j);
            if j < |st'.jobs| then CycleFits(Cycle(steps), st'.jobs[j].status) else steps == []
  {
    StepsStart(st, call, j);
  }

  lemma {:induction false} LifeFits(calls: seq<Call>, j: nat)
    ensures var st := Run(EMPTY, calls);
            if j < |st.jobs| then CycleFits(Cycle(Life(calls, j)), st.jobs[j].status) else Life(calls, j) == []
  {
    if calls != [] {
      var init, call := calls[..|calls| - 1], calls[|calls| - 1];
      LifeFits(init, j);
      if j < |Run(EMPTY, init).jobs| {
        LifeStep(Run(EMPTY, init), call, Life(init, j), j);
      } else {
        LifeBegins(Run(EMPTY, init), call, j);
        assert Life(calls, j) == StepsOf(Run(EMPTY, init), call, j);
      }
    }
  }

  /**
    Every closing of a job directly follows its verification, which directly follows its completion,
    and since the job was created or last reopened there was no other completion, verification or closing.
  */
  lemma ClosingNeedsOneCompletionThenOneVerification(calls: seq<Call>, call: Call, j: nat)
    requires j < |Run(EMPTY, calls).jobs|
    requires StepsOf(Run(EMPTY, calls), call, j) == [CloseStep]
    ensures var cycle := Cycle(Life(calls, j));
            |cycle| >= 2 && cycle[|cycle| - 2..] == [CompleteStep, VerifyStep] && Working(cycle[..|cycle| - 2])
  {
    LifeFits(calls, j);
    StepsMove(Run(EMPTY, calls), call, j);
    CycleBeforeClosing(Cycle(Life(calls, j)), Run(EMPTY, calls).jobs[j].status,
                       Apply(Run(EMPTY, calls), call).jobs[j].status);
  }

  lemma CycleBeforeClosing(cycle: seq<Step>, before: JobStatus, after: JobStatus)
    requires CycleFits(cycle, before) && StepMoves(before, [CloseStep], after)
    ensures |cycle| >= 2 && cycle[|cycle| - 2..] == [CompleteStep, VerifyStep] && Working(cycle[..|cycle| - 2])
  {
  }

  // ---- The service ----

  class Desk {
    var issues: seq<Issue>
    var jobs: seq<Job>
    var outbox: seq<Event>

    ghost function Tables(): State
      reads this
    {
      State(issues, jobs, outbox)
    }

    constructor ()
      ensures Tables() == EMPTY && Consistent(Tables())
    {
      issues, jobs, outbox := [], [], [];
    }

    method SetAssigned(issue: Option<nat>)
      modifies this`issues
      ensures Tables() == SetIssueAssigned(old(Tables()), issue)
    {
      if issue.Some? && issue.value < |issues| {
        var row := issues[issue.value];
        if row.status in {IssueOpen, UnderReview, IssueReopened} {
          issues := issues[issue.value := row.(status := IssueAssigned)];
        }
      }
    }

    /** The loop over an issue's jobs: does it have any, and are they all closed? */
    method JobsOf(issue: nat) returns (some: bool, allClosed: bool)
      ensures some == HasJob(jobs, issue) && allClosed == AllJobsClosed(jobs, issue)
    {
      some, allClosed := false, true;
      for j := 0 to |jobs|
        invariant some == HasJob(jobs[..j], issue)
        invariant allClosed == AllJobsClosed(jobs[..j], issue)
      {
        assert jobs[..j + 1] == jobs[..j] + [jobs[j]];
        if jobs[j].issue == Some(issue) {
          assert jobs[..j + 1][j].issue == Some(issue);
          some := true;
          if jobs[j].status != Closed {
            allClosed := false;
          }
        }
      }
      assert jobs[..|jobs|] == jobs;
    }

    method CloseIfAllJobsClosed(issue: Option<nat>, now: int)
      modifies this`issues
      ensures Tables() == CloseIssueIfAllJobsClosed(old(Tables()), issue, now)
    {
      if issue.Some? && issue.value < |issues| && issues[issue.value].status != IssueClosed {
        var some, allClosed := JobsOf(issue.value);
        if some && allClosed {
          issues := issues[issue.value := issues[issue.value].(status := IssueClosed, closedAt := Some(now))];
        }
      }
    }

    /** Saves a job row and publishes its event, if the transition has one. */
    method Transition(job: nat, row: Job, events: seq<Event>)
      requires job < |jobs|
      modifies this`jobs, this`outbox
      ensures Tables() == WithJob(old(Tables()), job, row, events)
    {
      jobs := jobs[job := row];
      outbox := outbox + events;
    }

    method Create(title: string, description: string, site: int) returns (r: Result<nat, Refusal>)
      requires Consistent(Tables())
      modifies this
      ensures Consistent(Tables()) && Tables() == Apply(old(Tables()), CreateIssue(title, description, site))
      ensures r.Err? ==> Try(old(Tables()), CreateIssue(title, description, site)) == Err(r.error)
      ensures r.Ok? ==> r.value == |old(issues)| && |issues| == |old(issues)| + 1
      ensures r.Ok? ==> IssueRaised(old(Tables()), title, description, site, Tables())
      ensures r.Err? ==> Tables() == old(Tables())
    {
      CallAnswers(Tables(), CreateIssue(title, description, site));
      ApplyKeepsConsistent(Tables(), CreateIssue(title, description, site));
      if !TitleOk(title) {
        return Err(NotClean);
      }
      issues := issues + [Issue(title, site, IssueOpen, None, 0, false, description)];
      outbox := outbox + [IssueCreated(|issues| - 1)];
      return Ok(|issues| - 1);
    }

    method Review(issue: nat, notes: string) returns (r: Result<(), Refusal>)
      requires Consistent(Tables())
      modifies this
      ensures Consistent(Tables()) && Tables() == Apply(old(Tables()), ReviewIssue(issue, notes))
      ensures r.Err? ==> Try(old(Tables()), ReviewIssue(issue, notes)) == Err(r.error)
      ensures r.Ok? ==> issue < |issues| && issues[issue].status == UnderReview && jobs == old(jobs)
      ensures r.Ok? ==> MovedToReview(old(Tables()), issue, notes, Tables())
      ensures r.Err? ==> Tables() == old(Tables())
    {
      CallAnswers(Tables(), ReviewIssue(issue, notes));
      ApplyKeepsConsistent(Tables(), ReviewIssue(issue, notes));
      if issue >= |issues| {
        return Err(NotFound);
      }
      if issues[issue].status !in {IssueOpen, IssueReopened} {
        return Err(InvalidStatus);
      }
      var row := issues[issue];
      row := row.(status := UnderReview, description := WithLine(row.description, ReviewLine(notes)));
      issues := issues[issue := row];
      return Ok(());
    }

    method Escalate(issue: nat, reason: string) returns (r: Result<nat, Refusal>)
      requires Consistent(Tables())
      modifies this
      ensures Consistent(Tables()) && Tables() == Apply(old(Tables()), EscalateIssue(issue, reason))
      ensures r.Err? ==> Try(old(Tables()), EscalateIssue(issue, reason)) == Err(r.error)
      ensures r.Ok? ==> issue < |issues| && r.value == issues[issue].escalationLevel == Escalations(outbox, issue)
      ensures r.Ok? ==> Escalated(old(Tables()), issue, reason, Tables())
      ensures r.Err? ==> Tables() == old(Tables())
    {
      CallAnswers(Tables(), EscalateIssue(issue, reason));
      ghost var call := EscalateIssue(issue, reason);
      ApplyKeepsConsistent(Tables(), call);
      if issue >= |issues| {
        return Err(NotFound);
      }
      if issues[issue].status == IssueClosed {
        return Err(IssueIsClosed);
      }
      if Blank(reason) {
        return Err(ReasonRequired);
      }
      var row := issues[issue];
      var level := row.escalationLevel + 1;
      row := row.(escalationLevel := level, isEscalated := true);
      issues := issues[issue := row.(description := WithLine(row.description, EscalationLine(level, reason)))];
      outbox := outbox + [IssueEscalated(issue, level, reason)];
      assert Tables() == Apply(old(Tables()), call);
      assert IssueFits(Tables(), issue);
      return Ok(level);
    }

    method NewJob(title: string, site: int, issue: Option<nat>, user: Option<int>, cleaner: Option<int>)
      returns (r: Result<nat, Refusal>)
      requires Consistent(Tables())
      modifies this
      ensures Consistent(Tables()) && Tables() == Apply(old(Tables()), CreateJob(title, site, issue, user, cleaner))
      ensures r.Err? ==> Try(old(Tables()), CreateJob(title, site, issue, user, cleaner)) == Err(r.error)
      ensures r.Ok? ==> r.value == |old(jobs)| && |jobs| == |old(jobs)| + 1
      ensures r.Ok? ==> JobAdded(old(Tables()), title, site, issue, user, cleaner, Tables())
      ensures r.Err? ==> Tables() == old(Tables())
    {
      CallAnswers(Tables(), CreateJob(title, site, issue, user, cleaner));
      ghost var call := CreateJob(title, site, issue, user, cleaner);
      ApplyKeepsConsistent(Tables(), call);
      if issue.Some? && issue.value >= |issues| {
        return Err(NotFound);
      }
      if !TitleOk(title) || (issue.Some? && issues[issue.value].site != site) {
        return Err(NotClean);
      }
      var job := |jobs|;
      jobs := jobs + [Job(issue, title, site, user, cleaner, Open, "", None, None, None, None, None)];
      if user.Some? || cleaner.Some? {
        Transition(job, jobs[job].(status := Assigned), [JobAssigned(job)]);
      }
      SetAssigned(issue);
      assert jobs == Apply(old(Tables()), call).jobs;
      assert outbox == Apply(old(Tables()), call).outbox;
      return Ok(job);
    }

    method Assign(job: nat, permitted: bool, user: Option<int>, cleaner: Option<int>)
      returns (r: Result<(), Refusal>)
      requires Consistent(Tables())
      modifies this
      ensures Consistent(Tables()) && Tables() == Apply(old(Tables()), AssignJob(job, permitted, user, cleaner))
      ensures r.Err? ==> Try(old(Tables()), AssignJob(job, permitted, user, cleaner)) == Err(r.error)
      ensures r.Ok? ==> job < |jobs| && jobs[job].status == Assigned
                        && jobs[job].user == user && jobs[job].cleaner == cleaner
      ensures r.Ok? ==> permitted && JobTaken(old(Tables()), job, user, cleaner, Tables())
      ensures r.Err? ==> Tables() == old(Tables())
    {
      CallAnswers(Tables(), AssignJob(job, permitted, user, cleaner));
      ghost var call := AssignJob(job, permitted, user, cleaner);
      ApplyKeepsConsistent(Tables(), call);
      if job >= |jobs| {
        return Err(NotFound);
      }
      if !permitted {
        return Err(NotPermitted);
      }
      var row := jobs[job];
      if row.status !in {Open, Reopened} {
        return Err(InvalidStatus);
      }
      if user.None? && cleaner.None? {
        return Err(AssigneeRequired);
      }
      Transition(job, row.(user := user, cleaner := cleaner, status := Assigned), [JobAssigned(job)]);
      SetAssigned(row.issue);
      return Ok(());
    }

    method Start(job: nat) returns (r: Result<(), Refusal>)
      requires Consistent(Tables())
      modifies this
      ensures Consistent(Tables()) && Tables() == Apply(old(Tables()), StartJob(job))
      ensures r.Err? ==> Try(old(Tables()), StartJob(job)) == Err(r.error)
      ensures r.Ok? ==> job < |jobs| && jobs[job] == old(jobs)[job].(status := InProgress)
      ensures r.Ok? ==> Started(old(Tables()), job, Tables())
      ensures r.Err? ==> Tables() == old(Tables())
    {
      CallAnswers(Tables(), StartJob(job));
      ApplyKeepsConsistent(Tables(), StartJob(job));
      if job >= |jobs| {
        return Err(NotFound);
      }
      var row := jobs[job];
      if row.status != Assigned {
        return Err(InvalidStatus);
      }
      Transition(job, row.(status := InProgress), []);
      SetAssigned(row.issue);
      return Ok(());
    }

    method Complete(job: nat, permitted: bool, notes: string, photo: Option<Photo>, photoRequired: bool, now: int)
      returns (r: Result<(), Refusal>)
      requires Consistent(Tables())
      modifies this
      ensures Consistent(Tables())
      ensures Tables() == Apply(old(Tables()), CompleteJob(job, permitted, notes, photo, photoRequired, now))
      ensures r.Err? ==>
                Try(old(Tables()), CompleteJob(job, permitted, notes, photo, photoRequired, now)) == Err(r.error)
      ensures r.Ok? ==> job < |jobs| && jobs[job].status == Completed && jobs[job].completedAt == Some(now)
      ensures r.Ok? ==> permitted && Finished(old(Tables()), job, notes, photo, photoRequired, now, Tables())
      ensures r.Err? ==> Tables() == old(Tables())
    {
      CallAnswers(Tables(), CompleteJob(job, permitted, notes, photo, photoRequired, now));
      ghost var call := CompleteJob(job, permitted, notes, photo, photoRequired, now);
      ApplyKeepsConsistent(Tables(), call);
      if job >= |jobs| {
        return Err(NotFound);
      }
      if !permitted {
        return Err(NotPermitted);
      }
      var row := jobs[job];
      if row.status !in {Assigned, InProgress} {
        return Err(InvalidStatus);
      }
      if photo.None? && photoRequired {
        return Err(PhotoRequired);
      }
      if photo.Some? {
        if !photo.value.admissible {
          return Err(PhotoRefused);
        }
        row := row.(photo := photo);
      }
      row := row.(completedAt := Some(now));
      if notes != "" {
        row := row.(notes := WithLine(row.notes, notes));
      }
      Transition(job, row.(status := Completed), [JobCompleted(job)]);
      CloseIfAllJobsClosed(row.issue, now);
      return Ok(());
    }

    method Verify(job: nat, permitted: bool, actor: int, now: int) returns (r: Result<(), Refusal>)
      requires Consistent(Tables())
      modifies this
      ensures Consistent(Tables()) && Tables() == Apply(old(Tables()), VerifyJob(job, permitted, actor, now))
      ensures r.Err? ==> Try(old(Tables()), VerifyJob(job, permitted, actor, now)) == Err(r.error)
      ensures r.Ok? ==> job < |jobs| && jobs[job].status == Verified
                        && jobs[job].verifiedBy == Some(actor) && jobs[job].verifiedAt == Some(now)
      ensures r.Ok? ==> permitted && Confirmed(old(Tables()), job, actor, now, Tables())
      ensures r.Err? ==> Tables() == old(Tables())
    {
      CallAnswers(Tables(), VerifyJob(job, permitted, actor, now));
      ApplyKeepsConsistent(Tables(), VerifyJob(job, permitted, actor, now));
      if job >= |jobs| {
        return Err(NotFound);
      }
      if !permitted {
        return Err(NotPermitted);
      }
      var row := jobs[job];
      if row.status != Completed {
        return Err(InvalidStatus);
      }
      row := row.(status := Verified, verifiedBy := Some(actor), verifiedAt := Some(now));
      Transition(job, row, [JobVerified(job)]);
      return Ok(());
    }

    method Close(job: nat, now: int) returns (r: Result<(), Refusal>)
      requires Consistent(Tables())
      modifies this
      ensures Consistent(Tables()) && Tables() == Apply(old(Tables()), CloseJob(job, now))
      ensures r.Err? ==> Try(old(Tables()), CloseJob(job, now)) == Err(r.error)
      ensures r.Ok? ==> job < |jobs| && jobs[job].status == Closed && jobs[job].closedAt == Some(now)
      ensures r.Ok? ==> ShutDown(old(Tables()), job, now, Tables())
      ensures r.Err? ==> Tables() == old(Tables())
    {
      CallAnswers(Tables(), CloseJob(job, now));
      ApplyKeepsConsistent(Tables(), CloseJob(job, now));
      if job >= |jobs| {
        return Err(NotFound);
      }
      var row := jobs[job];
      if row.status != Verified {
        return Err(VerifyRequired);
      }
      Transition(job, row.(status := Closed, closedAt := Some(now)), []);
      CloseIfAllJobsClosed(row.issue, now);
      return Ok(());
    }

    method Reopen(job: nat, reason: string) returns (r: Result<(), Refusal>)
      requires Consistent(Tables())
      modifies this
      ensures Consistent(Tables()) && Tables() == Apply(old(Tables()), ReopenJob(job, reason))
      ensures r.Err? ==> Try(old(Tables()), ReopenJob(job, reason)) == Err(r.error)
      ensures r.Ok? ==> job < |jobs| && jobs[job].status == Reopened && issues == old(issues)
      ensures r.Ok? ==> TakenUpAgain(old(Tables()), job, reason, Tables())
      ensures r.Err? ==> Tables() == old(Tables())
    {
      CallAnswers(Tables(), ReopenJob(job, reason));
      ApplyKeepsConsistent(Tables(), ReopenJob(job, reason));
      if job >= |jobs| {
        return Err(NotFound);
      }
      var row := jobs[job];
      if row.status !in {Closed, Completed, Verified} {
        return Err(InvalidStatus);
      }
      if Blank(reason) {
        return Err(ReasonRequired);
      }
      row := row.(status := Reopened, verifiedBy := None, verifiedAt := None, completedAt := None, closedAt := None);
      Transition(job, row.(notes := WithLine(row.notes, "Reopened: " + reason)), []);
      return Ok(());
    }
  }
}
