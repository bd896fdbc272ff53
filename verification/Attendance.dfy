/**
  The attendance engine: daily sheets generated from assignments and shift bindings, bulk and
  single entry, and the submit-review-return-lock workflow over groups of records.

  Records are never deleted by these services, so a table is the sequence of its rows and a
  row's key is its position.  `Engine` is the service; `Try` is one call on the table as a value.
*/
module Attendance {
  import opened Wrappers
  import opened Staffing

  // ---- What sheets are generated from ----

  datatype Assignment = Assignment(cleaner: int, site: int, kind: Kind, status: AssignmentStatus,
                                   start: int, end: Option<int>)

  datatype Binding = Binding(assignment: nat, shift: int, active: bool, from: int, to: Option<int>)

  datatype Roster = Roster(
    sites: map<int, WorkMode>,
    cleaners: set<int>,
    activeCleaners: set<int>,
    assignments: seq<Assignment>,
    bindings: seq<Binding>,
    lockAfterDays: int)

  /** The two partial unique constraints behind assignments and bindings. */
  ghost predicate RosterValid(r: Roster) {
    && (forall i, j :: 0 <= i < j < |r.assignments|
          && r.assignments[i].status in {Active, Suspended} && r.assignments[j].status in {Active, Suspended}
          && r.assignments[i].cleaner == r.assignments[j].cleaner
          ==> r.assignments[i].site != r.assignments[j].site)
    && (forall i :: 0 <= i < |r.bindings| ==> r.bindings[i].assignment < |r.assignments|)
    && (forall i, j :: 0 <= i < j < |r.bindings| && r.bindings[i].active && r.bindings[j].active
          && r.bindings[i].assignment == r.bindings[j].assignment
          ==> r.bindings[i].shift != r.bindings[j].shift)
  }

  predicate Covers(start: int, end: Option<int>, day: int) {
    start <= day && (end.Some? ==> end.value >= day)
  }

  /** An assignment whose cleaner is expected at the site on the day. */
  predicate Expected(r: Roster, a: Assignment, site: int, day: int, kind: Kind) {
    && a.site == site && a.status == Active && a.cleaner in r.activeCleaners
    && Covers(a.start, a.end, day) && a.kind == kind
  }

  predicate Bound(r: Roster, b: Binding, site: int, day: int, shift: Option<int>) {
    && b.assignment < |r.assignments| && Expected(r, r.assignments[b.assignment], site, day, Shift)
    && b.active && Covers(b.from, b.to, day) && (shift.Some? ==> b.shift == shift.value)
  }

  type Pair = (int, Option<int>)

  function FullTimePairs(r: Roster, site: int, day: int, n: nat): seq<Pair>
    requires n <= |r.assignments|
  {
    if n == 0 then []
    else FullTimePairs(r, site, day, n - 1)
         + if Expected(r, r.assignments[n - 1], site, day, FullTime) then [(r.assignments[n - 1].cleaner, None)] else []
  }

  function ShiftPairs(r: Roster, site: int, day: int, shift: Option<int>, n: nat): seq<Pair>
    requires n <= |r.bindings|
  {
    if n == 0 then []
    else
      var b := r.bindings[n - 1];
      ShiftPairs(r, site, day, shift, n - 1)
      + if Bound(r, b, site, day, shift) then [(r.assignments[b.assignment].cleaner, Some(b.shift))] else []
  }

  /** The cleaners, with their shifts, scheduled at a site on a day; a shift filter narrows only the shift part. */
  function ScheduledPairs(r: Roster, site: int, day: int, shift: Option<int>): seq<Pair>
    requires site in r.sites
  {
    (if r.sites[site] != ShiftOnly then FullTimePairs(r, site, day, |r.assignments|) else [])
    + (if r.sites[site] != FullTimeOnly then ShiftPairs(r, site, day, shift, |r.bindings|) else [])
  }

  // ---- Records ----

  datatype Mark = Scheduled | Present | Late | Absent | Sick | Leave | Permission | Off | NotScheduled

  datatype Review = Draft | Submitted | Reviewed | Returned | Locked

  datatype Record = Record(
    cleaner: int,
    site: int,
    shift: Option<int>,
    date: int,
    mark: Mark,
    checkIn: Option<int>,
    checkOut: Option<int>,
    notes: string,
    review: Review,
    submittedAt: Option<int>,
    returnReason: string)

  datatype Refusal =
    | SiteNotFound | FutureDate | ShiftNotAllowed | ShiftRequired | RecordNotFound | NotEditable
    | NoTarget | CleanerNotFound | Duplicate | NotPermitted | NothingToSubmit | StillScheduled
    | IsLocked | NothingToReturn | NothingToReview | InvalidReview

  predicate Editable(rec: Record) {
    rec.review == Draft || rec.review == Returned
  }

  function Placeholder(cleaner: int, site: int, shift: Option<int>, day: int): Record {
    Record(cleaner, site, shift, day, Scheduled, None, None, "", Draft, None, "")
  }

  predicate SameKey(a: Record, b: Record) {
    a.cleaner == b.cleaner && a.site == b.site && a.shift == b.shift && a.date == b.date
  }

  predicate InGroup(rec: Record, site: int, day: int, shift: Option<int>) {
    rec.site == site && rec.date == day && (shift.Some? ==> rec.shift == shift)
  }

  predicate Taken(table: seq<Record>, rec: Record) {
    exists i :: 0 <= i < |table| && SameKey(table[i], rec)
  }

  /** A bulk insert succeeds when it breaks neither unique constraint. */
  predicate Insertable(table: seq<Record>, rows: seq<Record>) {
    && (forall i :: 0 <= i < |rows| ==> !Taken(table, rows[i]))
    && (forall i, j :: 0 <= i < j < |rows| ==> !SameKey(rows[i], rows[j]))
  }

  // ---- Generating a sheet ----

  /** Whether the day's existing records, as filtered, hold the pair. */
  predicate Existing(table: seq<Record>, site: int, day: int, shift: Option<int>, pair: Pair) {
    exists i :: 0 <= i < |table| && InGroup(table[i], site, day, shift)
                && table[i].cleaner == pair.0 && table[i].shift == pair.1
  }

  function Placeholders(table: seq<Record>, site: int, day: int, shift: Option<int>, pairs: seq<Pair>): seq<Record> {
    if pairs == [] then []
    else
      var p := pairs[|pairs| - 1];
      Placeholders(table, site, day, shift, pairs[..|pairs| - 1])
      + if Existing(table, site, day, shift, p) then [] else [Placeholder(p.0, site, p.1, day)]
  }

  // ---- Bulk entry ----

  datatype Entry = Entry(
    record: Option<nat>,
    cleaner: Option<int>,
    shift: Option<int>,
    mark: Option<Mark>,
    checkIn: Option<int>,
    checkOut: Option<int>,
    notes: Option<string>)

  /** A record to write: a new row, or a changed copy of an existing one. */
  datatype Target = New(row: Record) | Change(id: nat, row: Record)

  function Marked(rec: Record, e: Entry): Record {
    rec.(mark := if e.mark.Some? then e.mark.value else Scheduled,
         checkIn := e.checkIn,
         checkOut := e.checkOut,
         notes := if e.notes.Some? then e.notes.value else rec.notes)
  }

  function Find(table: seq<Record>, key: Record, n: nat): (id: Option<nat>)
    requires n <= |table|
    ensures id.Some? ==> id.value < n && SameKey(table[id.value], key)
    ensures id.None? ==> forall i :: 0 <= i < n ==> !SameKey(table[i], key)
  {
    if n == 0 then None
    else
      var earlier := Find(table, key, n - 1);
      if earlier.Some? then earlier else if SameKey(table[n - 1], key) then Some(n - 1) else None
  }

  function Resolve(r: Roster, table: seq<Record>, site: int, day: int, e: Entry): Result<Target, Refusal>
    requires site in r.sites
  {
    if r.sites[site] == FullTimeOnly && e.shift.Some? then Err(ShiftNotAllowed)
    else if r.sites[site] == ShiftOnly && e.shift.None? then Err(ShiftRequired)
    else match e.record
      case Some(id) =>
        if id >= |table| || table[id].site != site || table[id].date != day then Err(RecordNotFound)
        else if !Editable(table[id]) then Err(NotEditable)
        else Ok(Change(id, Marked(table[id], e)))
      case None =>
        if e.cleaner.None? then Err(NoTarget)
        else if e.cleaner.value !in r.cleaners then Err(CleanerNotFound)
        else
          var newcomer := Placeholder(e.cleaner.value, site, e.shift, day);
          match Find(table, newcomer, |table|)
          case Some(id) => if !Editable(table[id]) then Err(NotEditable) else Ok(Change(id, Marked(table[id], e)))
          case None => Ok(New(Marked(newcomer, e)))
  }

  function ResolveAll(r: Roster, table: seq<Record>, site: int, day: int, entries: seq<Entry>)
    : (targets: Result<seq<Target>, Refusal>)
    requires site in r.sites
    ensures targets.Ok? ==> |targets.value| == |entries|
  {
    if entries == [] then Ok([])
    else
      match ResolveAll(r, table, site, day, entries[..|entries| - 1])
      case Err(e) => Err(e)
      case Ok(targets) =>
        match Resolve(r, table, site, day, entries[|entries| - 1])
        case Err(e) => Err(e)
        case Ok(t) => Ok(targets + [t])
  }

  function NewRows(targets: seq<Target>): seq<Record> {
    if targets == [] then []
    else NewRows(targets[..|targets| - 1])
         + match targets[|targets| - 1] case New(row) => [row] case Change(_, _) => []
  }

  /** One bulk update statement: where a row is named more than once, the first mention decides. */
  function Changed(table: seq<Record>, targets: seq<Target>): (table': seq<Record>)
    ensures |table'| == |table|
  {
    if targets == [] then table
    else
      match targets[0]
      case New(_) => Changed(table, targets[1..])
      case Change(id, row) =>
        var later := Changed(table, targets[1..]);
        if id < |table| then later[id := row] else later
  }

  // ---- The calls ----

  datatype Call =
    | Generate(site: int, day: int, shift: Option<int>)
    | Bulk(site: int, day: int, entries: seq<Entry>, today: int, allowFuture: bool)
    | Single(id: nat, mark: Mark, checkIn: Option<int>, checkOut: Option<int>, notes: string)
    | Submit(site: int, day: int, shift: Option<int>, permitted: bool, now: int)
    | ReturnRecord(id: nat, reason: string)
    | ReturnGroup(site: int, day: int, shift: Option<int>, permitted: bool, reason: string)
    | ReviewGroup(site: int, day: int, shift: Option<int>, permitted: bool, today: int)
    | ReviewRecord(id: nat)
    | Lock(site: int, shift: Option<int>, today: int)

  function Each(table: seq<Record>, f: Record -> Record): (table': seq<Record>)
    ensures |table'| == |table|
    ensures forall i :: 0 <= i < |table| ==> table'[i] == f(table[i])
  {
    seq(|table|, i requires 0 <= i < |table| => f(table[i]))
  }

  predicate Any(table: seq<Record>, p: Record -> bool) {
    exists i :: 0 <= i < |table| && p(table[i])
  }

  function Group(site: int, day: int, shift: Option<int>): Record -> bool {
    (rec: Record) => InGroup(rec, site, day, shift)
  }

  function Unmarked(site: int, day: int, shift: Option<int>): Record -> bool {
    (rec: Record) => InGroup(rec, site, day, shift) && rec.mark == Scheduled
  }

  function Returnable(site: int, day: int, shift: Option<int>): Record -> bool {
    (rec: Record) => InGroup(rec, site, day, shift) && rec.review != Locked
  }

  function Reviewable(site: int, day: int, shift: Option<int>): Record -> bool {
    (rec: Record) => InGroup(rec, site, day, shift) && rec.review == Submitted
  }

  function Lockable(site: int, shift: Option<int>, cutoff: int): Record -> bool {
    (rec: Record) => Due(rec, site, shift, cutoff)
  }

  function SubmitRow(site: int, day: int, shift: Option<int>, now: int): Record -> Record {
    (rec: Record) => if InGroup(rec, site, day, shift) then rec.(review := Submitted, submittedAt := Some(now)) else rec
  }

  function ReturnRow(site: int, day: int, shift: Option<int>, reason: string): Record -> Record {
    (rec: Record) => if InGroup(rec, site, day, shift) && rec.review != Locked
                     then rec.(review := Returned, returnReason := reason) else rec
  }

  function ReviewRow(site: int, day: int, shift: Option<int>): Record -> Record {
    (rec: Record) => if InGroup(rec, site, day, shift) && rec.review == Submitted then rec.(review := Reviewed) else rec
  }

  predicate Due(rec: Record, site: int, shift: Option<int>, cutoff: int) {
    rec.site == site && rec.date <= cutoff && rec.review == Reviewed && (shift.Some? ==> rec.shift == shift)
  }

  function LockRow(site: int, shift: Option<int>, cutoff: int): Record -> Record {
    (rec: Record) => if Due(rec, site, shift, cutoff) then rec.(review := Locked) else rec
  }

  function Try(r: Roster, table: seq<Record>, call: Call): Result<seq<Record>, Refusal> {
    match call
    case Generate(site, day, shift) =>
      if site !in r.sites then Err(SiteNotFound)
      else
        var rows := Placeholders(table, site, day, shift, ScheduledPairs(r, site, day, shift));
        if Insertable(table, rows) then Ok(table + rows) else Err(Duplicate)
    case Bulk(site, day, entries, today, allowFuture) =>
      if day > today && !allowFuture then Err(FutureDate)
      else if site !in r.sites then Err(SiteNotFound)
      else
        (match ResolveAll(r, table, site, day, entries)
         case Err(e) => Err(e)
         case Ok(targets) =>
           if Insertable(table, NewRows(targets)) then Ok(Changed(table, targets) + NewRows(targets))
           else Err(Duplicate))
    case Single(id, mark, checkIn, checkOut, notes) =>
      if id >= |table| then Err(RecordNotFound)
      else if !Editable(table[id]) then Err(NotEditable)
      else
        var rec := table[id];
        Ok(table[id := rec.(mark := mark, checkIn := checkIn, checkOut := checkOut,
                            notes := if notes != "" then notes else rec.notes)])
    case Submit(site, day, shift, permitted, now) =>
      if !permitted then Err(NotPermitted)
      else if !Any(table, Group(site, day, shift)) then Err(NothingToSubmit)
      else if Any(table, Unmarked(site, day, shift)) then Err(StillScheduled)
      else Ok(Each(table, SubmitRow(site, day, shift, now)))
    case ReturnRecord(id, reason) =>
      if id >= |table| then Err(RecordNotFound)
      else if table[id].review == Locked then Err(IsLocked)
      else Ok(table[id := table[id].(review := Returned, returnReason := reason)])
    case ReturnGroup(site, day, shift, permitted, reason) =>
      if !permitted then Err(NotPermitted)
      else if !Any(table, Returnable(site, day, shift)) then Err(NothingToReturn)
      else Ok(Each(table, ReturnRow(site, day, shift, reason)))
    case ReviewGroup(site, day, shift, permitted, today) =>
      if !permitted then Err(NotPermitted)
      else if !Any(table, Reviewable(site, day, shift)) then Err(NothingToReview)
      else Ok(Each(Each(table, ReviewRow(site, day, shift)), LockRow(site, shift, today - r.lockAfterDays)))
    case ReviewRecord(id) =>
      if id >= |table| then Err(RecordNotFound)
      else if table[id].review != Submitted then Err(InvalidReview)
      else Ok(table[id := table[id].(review := Reviewed)])
    case Lock(site, shift, today) =>
      Ok(Each(table, LockRow(site, shift, today - r.lockAfterDays)))
  }

  function Apply(r: Roster, table: seq<Record>, call: Call): seq<Record> {
    match Try(r, table, call)
    case Ok(table') => table'
    case Err(_) => table
  }

  /** A call and the assignments, bindings and sites it finds: these change between calls. */
  type Step = (Roster, Call)

  function Run(history: seq<Step>): seq<Record> {
    if history == [] then [] else
      var (r, call) := history[|history| - 1];
      Apply(r, Run(history[..|history| - 1]), call)
  }

  // ---- Every reachable table ----

  ghost predicate KeysDistinct(table: seq<Record>) {
    forall i, j :: 0 <= i < j < |table| ==> !SameKey(table[i], table[j])
  }

  predicate RecordFits(rec: Record, cutoff: int) {
    && (rec.review in {Submitted, Reviewed, Locked} ==> rec.mark != Scheduled)
    && (rec.review == Locked ==> rec.date <= cutoff)
  }

  /** The date a call happens on, where it looks at the clock. */
  function Today(call: Call, before: int): int {
    match call
    case Bulk(_, _, _, today, _) => today
    case ReviewGroup(_, _, _, _, today) => today
    case Lock(_, _, today) => today
    case _ => before
  }

  ghost predicate Sound(lockAfterDays: int, table: seq<Record>, today: int) {
    KeysDistinct(table) && forall i :: 0 <= i < |table| ==> RecordFits(table[i], today - lockAfterDays)
  }

  /** What a call may do to a record that is already there. */
  predicate Kept(before: Record, after: Record) {
    SameKey(before, after) && (!Editable(before) ==>
      after == before.(review := after.review, submittedAt := after.submittedAt, returnReason := after.returnReason))
  }

  lemma {:induction false} ChangedKeeps(r: Roster, table: seq<Record>, site: int, day: int, entries: seq<Entry>,
                                        n: nat, i: nat)
    requires site in r.sites && ResolveAll(r, table, site, day, entries).Ok?
    requires n <= |entries| && i < |table|
    ensures var before, after := table[i], Changed(table, ResolveAll(r, table, site, day, entries).value[n..])[i];
            && SameKey(before, after) && after.review == before.review
            && (!Editable(before) ==> after == before)
    decreases |entries| - n
  {
    var targets := ResolveAll(r, table, site, day, entries).value;
    if n < |entries| {
      ResolveOne(r, table, site, day, entries, n);
      ChangedKeeps(r, table, site, day, entries, n + 1, i);
      assert targets[n..][1..] == targets[n + 1..];
    } else {
      assert targets[n..] == [];
    }
  }

  lemma {:induction false} ResolveOne(r: Roster, table: seq<Record>, site: int, day: int, entries: seq<Entry>, n: nat)
    requires site in r.sites && ResolveAll(r, table, site, day, entries).Ok? && n < |entries|
    ensures Resolve(r, table, site, day, entries[n]) == Ok(ResolveAll(r, table, site, day, entries).value[n])
  {
    if n < |entries| - 1 {
      ResolveOne(r, table, site, day, entries[..|entries| - 1], n);
    }
  }

  /**
    No call changes the key of a record, and none changes mark, times or notes of a submitted,
    reviewed or locked one.
  */
  lemma CallKeepsRecords(r: Roster, table: seq<Record>, call: Call, i: nat)
    requires i < |table|
    ensures i < |Apply(r, table, call)| && Kept(table[i], Apply(r, table, call)[i])
  {
    if call.Bulk? && Try(r, table, call).Ok? {
      ChangedKeeps(r, table, call.site, call.day, call.entries, 0, i);
      var targets := ResolveAll(r, table, call.site, call.day, call.entries).value;
      assert targets[0..] == targets;
    }
  }

  predicate OfGroup(rec: Record, site: int, day: int, shift: Option<int>) {
    rec.site == site && rec.date == day && (shift == None || rec.shift == shift)
  }

  function LockedIfDue(rec: Record, site: int, shift: Option<int>, cutoff: int): Record {
    if rec.review == Reviewed && rec.site == site && rec.date <= cutoff && (shift == None || rec.shift == shift)
    then rec.(review := Locked) else rec
  }

  /** What an accepted call other than a bulk entry makes of the record with key `id`. */
  function Written(r: Roster, call: Call, id: nat, rec: Record): Record
    requires !call.Bulk?
  {
    match call
    case Generate(_, _, _) => rec
    case Single(i, mark, checkIn, checkOut, notes) =>
      if i != id then rec
      else rec.(mark := mark, checkIn := checkIn, checkOut := checkOut,
                notes := if notes == "" then rec.notes else notes)
    case Submit(site, day, shift, _, now) =>
      if OfGroup(rec, site, day, shift) then rec.(review := Submitted, submittedAt := Some(now)) else rec
    case ReturnRecord(i, reason) => if i == id then rec.(review := Returned, returnReason := reason) else rec
    case ReturnGroup(site, day, shift, _, reason) =>
      if OfGroup(rec, site, day, shift) && rec.review in {Draft, Submitted, Reviewed, Returned}
      then rec.(review := Returned, returnReason := reason) else rec
    case ReviewGroup(site, day, shift, _, today) =>
      var reviewed :=
        if OfGroup(rec, site, day, shift) && rec.review == Submitted then rec.(review := Reviewed) else rec;
      LockedIfDue(reviewed, site, shift, today - r.lockAfterDays)
    case ReviewRecord(i) => if i == id then rec.(review := Reviewed) else rec
    case Lock(site, shift, today) => LockedIfDue(rec, site, shift, today - r.lockAfterDays)
  }

  /** An accepted call writes exactly the records and columns it should. */
  lemma CallWrites(r: Roster, table: seq<Record>, call: Call, id: nat)
    requires !call.Bulk? && Try(r, table, call).Ok? && id < |table|
    ensures id < |Apply(r, table, call)| && Apply(r, table, call)[id] == Written(r, call, id, table[id])
    ensures !call.Generate? ==> |Apply(r, table, call)| == |table|
  {
  }

  /** All of an accepted call's writing at once. */
  ghost predicate WritesOnly(r: Roster, table: seq<Record>, call: Call, table': seq<Record>)
    requires !call.Bulk?
  {
    |table'| == |table| && forall id: nat :: id < |table| ==> table'[id] == Written(r, call, id, table[id])
  }

  lemma CallAnswers(r: Roster, table: seq<Record>, call: Call)
    requires !call.Bulk? && !call.Generate?
    ensures Try(r, table, call).Ok? <==> Admissible(table, call)
    ensures if Try(r, table, call).Ok? then WritesOnly(r, table, call, Apply(r, table, call))
            else Apply(r, table, call) == table
  {
    AcceptsAdmissible(r, table, call);
    if Try(r, table, call).Ok? {
      forall id: nat | id < |table| ensures Apply(r, table, call)[id] == Written(r, call, id, table[id]) {
        CallWrites(r, table, call, id);
      }
      assert |Apply(r, table, call)| == |table|;
    }
  }

  /** What the workflow asks of its calls; generation and bulk entry have their own conditions. */
  predicate Admissible(table: seq<Record>, call: Call)
    requires !call.Bulk? && !call.Generate?
  {
    match call
    case Single(id, _, _, _, _) => id < |table| && table[id].review in {Draft, Returned}
    case Submit(site, day, shift, permitted, _) =>
      && permitted && (exists i :: 0 <= i < |table| && OfGroup(table[i], site, day, shift))
      && (forall i :: 0 <= i < |table| && OfGroup(table[i], site, day, shift) ==> table[i].mark != Scheduled)
    case ReturnRecord(id, _) => id < |table| && table[id].review != Locked
    case ReturnGroup(site, day, shift, permitted, _) =>
      permitted && exists i :: 0 <= i < |table| && OfGroup(table[i], site, day, shift) && table[i].review != Locked
    case ReviewGroup(site, day, shift, permitted, _) =>
      permitted && exists i :: 0 <= i < |table| && OfGroup(table[i], site, day, shift) && table[i].review == Submitted
    case ReviewRecord(id) => id < |table| && table[id].review == Submitted
    case Lock(_, _, _) => true
  }

  lemma AcceptsAdmissible(r: Roster, table: seq<Record>, call: Call)
    requires !call.Bulk? && !call.Generate?
    ensures Try(r, table, call).Ok? <==> Admissible(table, call)
  {
    match call
    case Submit(site, day, shift, _, _) =>
      AnyMeans(table, Group(site, day, shift));
      AnyMeans(table, Unmarked(site, day, shift));
      assert forall i :: 0 <= i < |table| ==>
        (OfGroup(table[i], site, day, shift) <==> Group(site, day, shift)(table[i]));
    case ReturnGroup(site, day, shift, _, _) =>
      AnyMeans(table, Returnable(site, day, shift));
      assert forall i :: 0 <= i < |table| ==>
        (OfGroup(table[i], site, day, shift) && table[i].review != Locked <==> Returnable(site, day, shift)(table[i]));
    case ReviewGroup(site, day, shift, _, _) =>
      AnyMeans(table, Reviewable(site, day, shift));
      assert forall i :: 0 <= i < |table| ==>
        (OfGroup(table[i], site, day, shift) && table[i].review == Submitted
         <==> Reviewable(site, day, shift)(table[i]));
    case _ =>
  }

  /** What a refusal of these calls means: the first thing that was wrong. */
  predicate RefusedFor(table: seq<Record>, call: Call, error: Refusal)
    requires !call.Bulk? && !call.Generate?
  {
    match error
    case NotPermitted => (call.Submit? || call.ReturnGroup? || call.ReviewGroup?) && !call.permitted
    case RecordNotFound => (call.Single? || call.ReturnRecord? || call.ReviewRecord?) && call.id >= |table|
    case NotEditable => call.Single? && call.id < |table| && table[call.id].review in {Submitted, Reviewed, Locked}
    case IsLocked => call.ReturnRecord? && call.id < |table| && table[call.id].review == Locked
    case InvalidReview => call.ReviewRecord? && call.id < |table| && table[call.id].review != Submitted
    case NothingToSubmit =>
      call.Submit? && call.permitted
      && forall i :: 0 <= i < |table| ==> !OfGroup(table[i], call.site, call.day, call.shift)
    case StillScheduled =>
      call.Submit? && call.permitted
      && exists i :: 0 <= i < |table| && OfGroup(table[i], call.site, call.day, call.shift)
                     && table[i].mark == Scheduled
    case NothingToReturn =>
      call.ReturnGroup? && call.permitted
      && forall i :: 0 <= i < |table| && OfGroup(table[i], call.site, call.day, call.shift)
           ==> table[i].review == Locked
    case NothingToReview =>
      call.ReviewGroup? && call.permitted
      && forall i :: 0 <= i < |table| && OfGroup(table[i], call.site, call.day, call.shift)
           ==> table[i].review != Submitted
    case _ => false
  }

  lemma RefusalTells(r: Roster, table: seq<Record>, call: Call)
    requires !call.Bulk? && !call.Generate? && Try(r, table, call).Err?
    ensures RefusedFor(table, call, Try(r, table, call).error)
  {
    if call.Submit? {
      assert forall i :: 0 <= i < |table| ==>
        (OfGroup(table[i], call.site, call.day, call.shift) <==> Group(call.site, call.day, call.shift)(table[i]));
    } else if call.ReturnGroup? {
      assert forall i :: 0 <= i < |table| ==>
        (OfGroup(table[i], call.site, call.day, call.shift) && table[i].review != Locked
         <==> Returnable(call.site, call.day, call.shift)(table[i]));
    } else if call.ReviewGroup? {
      assert forall i :: 0 <= i < |table| ==>
        (OfGroup(table[i], call.site, call.day, call.shift) && table[i].review == Submitted
         <==> Reviewable(call.site, call.day, call.shift)(table[i]));
    }
  }

  lemma AnyMeans(table: seq<Record>, p: Record -> bool)
    ensures Any(table, p) <==> exists i :: 0 <= i < |table| && p(table[i])
  {
  }

  /** How a call moves a record's review status: group calls touch only the records they name, locks only due ones. */
  predicate ReviewMoves(r: Roster, call: Call, id: nat, before: Record, after: Record) {
    || after.review == before.review
    || (match call
        case Submit(site, day, shift, _, _) =>
          InGroup(before, site, day, shift) && before.mark != Scheduled && after.review == Submitted
        case ReturnRecord(i, _) => i == id && before.review != Locked && after.review == Returned
        case ReturnGroup(site, day, shift, _, _) =>
          InGroup(before, site, day, shift) && before.review != Locked && after.review == Returned
        case ReviewGroup(site, day, shift, _, today) =>
          || (InGroup(before, site, day, shift) && before.review == Submitted && after.review == Reviewed)
          || (after.review == Locked && Due(before.(review := Reviewed), site, shift, today - r.lockAfterDays)
              && (before.review == Reviewed || (InGroup(before, site, day, shift) && before.review == Submitted)))
        case ReviewRecord(i) => i == id && before.review == Submitted && after.review == Reviewed
        case Lock(site, shift, today) =>
          after.review == Locked && Due(before, site, shift, today - r.lockAfterDays)
        case _ => false)
  }

  lemma CallMovesReview(r: Roster, table: seq<Record>, call: Call, i: nat)
    requires i < |table|
    ensures i < |Apply(r, table, call)| && ReviewMoves(r, call, i, table[i], Apply(r, table, call)[i])
  {
    CallKeepsRecords(r, table, call, i);
    if Try(r, table, call).Ok? {
      match call
      case Bulk(site, day, entries, _, _) =>
        ChangedKeeps(r, table, site, day, entries, 0, i);
        var targets := ResolveAll(r, table, site, day, entries).value;
        assert targets[0..] == targets;
      case Submit(site, day, shift, _, _) =>
        assert !(InGroup(table[i], site, day, shift) && table[i].mark == Scheduled);
      case _ =>
    }
  }

  /** Records are only added as fresh drafts. */
  lemma CallAddsDrafts(r: Roster, table: seq<Record>, call: Call, i: nat)
    requires |table| <= i < |Apply(r, table, call)|
    ensures Apply(r, table, call)[i].review == Draft
    ensures !Taken(table, Apply(r, table, call)[i])
    ensures forall j :: |table| <= j < i ==> !SameKey(Apply(r, table, call)[j], Apply(r, table, call)[i])
  {
    match call
    case Generate(site, day, shift) =>
      var rows := Placeholders(table, site, day, shift, ScheduledPairs(r, site, day, shift));
      PlaceholdersOfPairs(table, site, day, shift, ScheduledPairs(r, site, day, shift), i - |table|);
      InsertedRow(table, table, rows, i);
    case Bulk(site, day, entries, _, _) =>
      var targets := ResolveAll(r, table, site, day, entries).value;
      NewRowsAreDrafts(r, table, site, day, entries, i - |table|);
      InsertedRow(table, Changed(table, targets), NewRows(targets), i);
    case _ =>
  }

  lemma InsertedRow(table: seq<Record>, changed: seq<Record>, rows: seq<Record>, i: nat)
    requires |changed| == |table| <= i < |table| + |rows| && Insertable(table, rows)
    ensures (changed + rows)[i] == rows[i - |table|]
    ensures !Taken(table, (changed + rows)[i])
    ensures forall j :: |table| <= j < i ==> !SameKey((changed + rows)[j], (changed + rows)[i])
  {
    forall j | |table| <= j < i ensures !SameKey((changed + rows)[j], (changed + rows)[i]) {
      assert !SameKey(rows[j - |table|], rows[i - |table|]);
    }
  }

  lemma {:induction false} PlaceholdersOfPairs(table: seq<Record>, site: int, day: int, shift: Option<int>,
                                                pairs: seq<Pair>, k: nat)
    requires k < |Placeholders(table, site, day, shift, pairs)|
    ensures exists n :: 0 <= n < |pairs| && !Existing(table, site, day, shift, pairs[n])
              && Placeholders(table, site, day, shift, pairs)[k] == Placeholder(pairs[n].0, site, pairs[n].1, day)
  {
    var init := pairs[..|pairs| - 1];
    if k < |Placeholders(table, site, day, shift, init)| {
      PlaceholdersOfPairs(table, site, day, shift, init, k);
      var n :| 0 <= n < |init| && !Existing(table, site, day, shift, init[n])
               && Placeholders(table, site, day, shift, init)[k] == Placeholder(init[n].0, site, init[n].1, day);
      assert pairs[n] == init[n];
    } else {
      var n := |pairs| - 1;
      assert !Existing(table, site, day, shift, pairs[n]);
    }
  }

  lemma {:induction false} NewRowsAreDrafts(r: Roster, table: seq<Record>, site: int, day: int, entries: seq<Entry>,
                                            k: nat)
    requires site in r.sites && ResolveAll(r, table, site, day, entries).Ok?
    requires k < |NewRows(ResolveAll(r, table, site, day, entries).value)|
    ensures NewRows(ResolveAll(r, table, site, day, entries).value)[k].review == Draft
  {
    var targets := ResolveAll(r, table, site, day, entries).value;
    var init := entries[..|entries| - 1];
    var before := ResolveAll(r, table, site, day, init).value;
    assert targets[..|targets| - 1] == before;
    if k < |NewRows(before)| {
      NewRowsAreDrafts(r, table, site, day, init, k);
    }
  }

  /** Every call keeps keys distinct, submitted records marked, and locked ones behind the lock cutoff. */
  lemma ApplyKeepsSound(r: Roster, table: seq<Record>, call: Call, today: int)
    requires Sound(r.lockAfterDays, table, today) && Today(call, today) >= today
    ensures Sound(r.lockAfterDays, Apply(r, table, call), Today(call, today))
  {
    var table' := Apply(r, table, call);
    forall i | 0 <= i < |table'| ensures RecordFits(table'[i], Today(call, today) - r.lockAfterDays) {
      if i < |table| {
        CallKeepsRecords(r, table, call, i);
        CallMovesReview(r, table, call, i);
        assert RecordFits(table[i], today - r.lockAfterDays);
      } else {
        CallAddsDrafts(r, table, call, i);
      }
    }
    forall i, j | 0 <= i < j < |table'| ensures !SameKey(table'[i], table'[j]) {
      if j >= |table| {
        CallAddsDrafts(r, table, call, j);
      } else {
        CallKeepsRecords(r, table, call, j);
      }
      if i < |table| {
        CallKeepsRecords(r, table, call, i);
        assert j < |table| ==> !SameKey(table[i], table[j]);
      }
    }
  }

  /** The clock after a run that started at `start`. */
  function Clock(history: seq<Step>, start: int): int {
    if history == [] then start
    else Today(history[|history| - 1].1, Clock(history[..|history| - 1], start))
  }

  predicate ClockRuns(history: seq<Step>, start: int) {
    history == [] || (ClockRuns(history[..|history| - 1], start)
                      && Clock(history, start) >= Clock(history[..|history| - 1], start))
  }

  predicate LockAfter(history: seq<Step>, days: int) {
    forall i :: 0 <= i < |history| ==> history[i].0.lockAfterDays == days
  }

  /**
    Whatever happens to sites, assignments and bindings between calls: in every state reached while the clock runs
    forward, no two records share a key, no submitted, reviewed or locked record is still SCHEDULED, and locked
    records are as old as the lock demands.
  */
  lemma {:induction false} RunKeepsSound(history: seq<Step>, lockAfterDays: int, start: int)
    requires ClockRuns(history, start) && LockAfter(history, lockAfterDays)
    ensures Sound(lockAfterDays, Run(history), Clock(history, start))
  {
    if history != [] {
      var init, last := history[..|history| - 1], history[|history| - 1];
      RunKeepsSound(init, lockAfterDays, start);
      ApplyKeepsSound(last.0, Run(init), last.1, Clock(init, start));
    }
  }

  predicate AllMarked(table: seq<Record>, site: int, day: int, shift: Option<int>) {
    forall i :: 0 <= i < |table| && InGroup(table[i], site, day, shift) ==> table[i].mark != Scheduled
  }

  /** LOCKED is not final: a record leaves it exactly when its day, with every record marked, is submitted again. */
  lemma LockedLeavesBySubmit(r: Roster, table: seq<Record>, call: Call, i: nat)
    requires i < |table| && table[i].review == Locked
    ensures i < |Apply(r, table, call)|
    ensures Apply(r, table, call)[i].review != Locked
       <==> call.Submit? && call.permitted && InGroup(table[i], call.site, call.day, call.shift)
            && AllMarked(table, call.site, call.day, call.shift)
  {
    CallMovesReview(r, table, call, i);
    if call.Submit? && InGroup(table[i], call.site, call.day, call.shift) {
      assert Group(call.site, call.day, call.shift)(table[i]);
    }
  }

  lemma RunOneMore(history: seq<Step>, r: Roster, call: Call)
    ensures Run(history + [(r, call)]) == Apply(r, Run(history), call)
  {
    assert (history + [(r, call)])[..|history|] == history;
  }

  /** It happens: a marked, submitted, reviewed and locked record is submitted again. */
  lemma LockedIsSubmittedAgain(r: Roster, site: int, day: int, cleaner: int, now: int, later: int)
    requires site in r.sites && r.sites[site] == FullTimeOnly && cleaner in r.cleaners
    requires day <= later - r.lockAfterDays
    ensures var entry := Entry(None, Some(cleaner), None, Some(Present), None, None, None);
            var bulk, submit := Bulk(site, day, [entry], day, false), Submit(site, day, None, true, now);
            var history := [(r, bulk), (r, submit), (r, ReviewGroup(site, day, None, true, later))];
            && |Run(history)| == 1 && Run(history)[0].review == Locked
            && |Run(history + [(r, submit)])| == 1 && Run(history + [(r, submit)])[0].review == Submitted
  {
    var entry := Entry(None, Some(cleaner), None, Some(Present), None, None, None);
    var bulk, submit := Bulk(site, day, [entry], day, false), Submit(site, day, None, true, now);
    var review := ReviewGroup(site, day, None, true, later);
    var rec := Marked(Placeholder(cleaner, site, None, day), entry);
    NewEntryResolves(r, [], site, day, entry);
    SingleNewEntry(r, [], bulk, entry, rec);
    LockedRun(r, bulk, submit, review, rec);
  }

  lemma LockedRun(r: Roster, first: Call, submit: Call, review: Call, rec: Record)
    requires Apply(r, [], first) == [rec] && rec.mark != Scheduled
    requires submit.Submit? && submit.permitted && InGroup(rec, submit.site, submit.day, submit.shift)
    requires review.ReviewGroup? && review.permitted && InGroup(rec, review.site, review.day, review.shift)
    requires rec.date <= review.today - r.lockAfterDays
    ensures var history := [(r, first), (r, submit), (r, review)];
            && |Run(history)| == 1 && Run(history)[0].review == Locked
            && |Run(history + [(r, submit)])| == 1 && Run(history + [(r, submit)])[0].review == Submitted
  {
    var submitted := rec.(review := Submitted, submittedAt := Some(submit.now));
    SubmitOne(r, rec, submit);
    LockOne(r, submitted, review);
    SubmitOne(r, submitted.(review := Locked), submit);
    RunOfThree(r, first, submit, review);
    RunOneMore([(r, first), (r, submit), (r, review)], r, submit);
  }

  lemma NewEntryResolves(r: Roster, table: seq<Record>, site: int, day: int, e: Entry)
    requires site in r.sites && r.sites[site] == FullTimeOnly
    requires e.record.None? && e.shift.None? && e.cleaner.Some? && e.cleaner.value in r.cleaners
    requires !Taken(table, Placeholder(e.cleaner.value, site, None, day))
    ensures Resolve(r, table, site, day, e) == Ok(New(Marked(Placeholder(e.cleaner.value, site, None, day), e)))
  {
  }

  lemma RunOfThree(r: Roster, c1: Call, c2: Call, c3: Call)
    ensures Run([(r, c1), (r, c2), (r, c3)]) == Apply(r, Apply(r, Apply(r, [], c1), c2), c3)
  {
    var empty: seq<Step> := [];
    RunOneMore(empty, r, c1);
    RunOneMore(empty + [(r, c1)], r, c2);
    RunOneMore(empty + [(r, c1)] + [(r, c2)], r, c3);
    assert empty + [(r, c1)] + [(r, c2)] + [(r, c3)] == [(r, c1), (r, c2), (r, c3)];
  }

  /** A bulk entry of one entry for a new record adds that record. */
  lemma SingleNewEntry(r: Roster, table: seq<Record>, call: Call, e: Entry, rec: Record)
    requires call.Bulk? && call.entries == [e] && call.day <= call.today && call.site in r.sites
    requires Resolve(r, table, call.site, call.day, e) == Ok(New(rec)) && !Taken(table, rec)
    ensures Apply(r, table, call) == table + [rec]
  {
    var entries, targets := call.entries, [New(rec)];
    assert entries[..|entries| - 1] == [] && targets[..|targets| - 1] == [] && targets[1..] == [];
    assert ResolveAll(r, table, call.site, call.day, entries[..|entries| - 1]) == Ok([]);
    assert ResolveAll(r, table, call.site, call.day, entries) == Ok([] + targets);
    assert NewRows(targets) == [rec];
    assert Changed(table, targets) == Changed(table, targets[1..]);
  }

  lemma SubmitOne(r: Roster, rec: Record, call: Call)
    requires call.Submit? && call.permitted && InGroup(rec, call.site, call.day, call.shift) && rec.mark != Scheduled
    ensures Apply(r, [rec], call) == [rec.(review := Submitted, submittedAt := Some(call.now))]
  {
    assert Group(call.site, call.day, call.shift)([rec][0]);
  }

  lemma LockOne(r: Roster, rec: Record, call: Call)
    requires call.ReviewGroup? && call.permitted && InGroup(rec, call.site, call.day, call.shift)
    requires rec.review == Submitted && rec.date <= call.today - r.lockAfterDays
    ensures Apply(r, [rec], call) == [rec.(review := Locked)]
  {
    assert Reviewable(call.site, call.day, call.shift)([rec][0]);
  }

  // ---- What bulk entry writes ----

  lemma {:induction false} FirstMentionDecides(table: seq<Record>, targets: seq<Target>, n: nat, id: nat, row: Record)
    requires n < |targets| && targets[n] == Change(id, row) && id < |table|
    requires forall m :: 0 <= m < n ==> !Names(targets[m], id)
    ensures Changed(table, targets)[id] == row
  {
    if n > 0 {
      assert targets[1..][n - 1] == Change(id, row);
      assert !Names(targets[0], id);
      FirstMentionDecides(table, targets[1..], n - 1, id, row);
    }
  }

  lemma {:induction false} UnmentionedStays(table: seq<Record>, targets: seq<Target>, id: nat)
    requires id < |table|
    requires forall m :: 0 <= m < |targets| ==> !Names(targets[m], id)
    ensures Changed(table, targets)[id] == table[id]
  {
    if targets != [] {
      assert !Names(targets[0], id);
      UnmentionedStays(table, targets[1..], id);
    }
  }

  lemma {:induction false} NewRowOf(targets: seq<Target>, n: nat) returns (k: nat)
    requires n < |targets| && targets[n].New?
    ensures k < |NewRows(targets)| && NewRows(targets)[k] == targets[n].row
  {
    var init := targets[..|targets| - 1];
    if n < |init| {
      k := NewRowOf(init, n);
    } else {
      k := |NewRows(init)|;
    }
  }

  lemma {:induction false} NewRowsInOrder(targets: seq<Target>, m: nat, n: nat) returns (k: nat, l: nat)
    requires m < n < |targets| && targets[m].New? && targets[n].New?
    ensures k < l < |NewRows(targets)|
    ensures NewRows(targets)[k] == targets[m].row && NewRows(targets)[l] == targets[n].row
  {
    var init := targets[..|targets| - 1];
    if n < |init| {
      k, l := NewRowsInOrder(init, m, n);
    } else {
      k := NewRowOf(init, m);
      l := |NewRows(init)|;
    }
  }

  lemma {:induction false} NewRowOrigin(targets: seq<Target>, k: nat) returns (n: nat)
    requires k < |NewRows(targets)|
    ensures n < |targets| && targets[n] == New(NewRows(targets)[k])
  {
    var init := targets[..|targets| - 1];
    if k < |NewRows(init)| {
      n := NewRowOrigin(init, k);
    } else {
      n := |init|;
    }
  }

  /** What the entries of an accepted bulk entry name. */
  function Targets(r: Roster, table: seq<Record>, call: Call): (targets: seq<Target>)
    requires call.Bulk? && Try(r, table, call).Ok?
    ensures |targets| == |call.entries|
    ensures forall n :: 0 <= n < |targets| ==> Resolve(r, table, call.site, call.day, call.entries[n]) == Ok(targets[n])
    ensures Insertable(table, NewRows(targets))
    ensures Apply(r, table, call) == Changed(table, targets) + NewRows(targets)
  {
    ResolvedEach(r, table, call.site, call.day, call.entries);
    ResolveAll(r, table, call.site, call.day, call.entries).value
  }

  lemma ResolvedEach(r: Roster, table: seq<Record>, site: int, day: int, entries: seq<Entry>)
    requires site in r.sites && ResolveAll(r, table, site, day, entries).Ok?
    ensures var targets := ResolveAll(r, table, site, day, entries).value;
            forall n :: 0 <= n < |targets| ==> Resolve(r, table, site, day, entries[n]) == Ok(targets[n])
  {
    forall n | 0 <= n < |entries|
      ensures Resolve(r, table, site, day, entries[n]) == Ok(ResolveAll(r, table, site, day, entries).value[n])
    {
      ResolveOne(r, table, site, day, entries, n);
    }
  }

  predicate Names(t: Target, id: nat) {
    t.Change? && t.id == id
  }

  /** A bulk entry's change to a record: an editable one, which gets the mark, times and notes given. */
  predicate Changes(table: seq<Record>, e: Entry, t: Target) {
    t.Change? ==>
      && t.id < |table| && Editable(table[t.id])
      && t.row == table[t.id].(mark := if e.mark.Some? then e.mark.value else Scheduled,
                               checkIn := e.checkIn, checkOut := e.checkOut,
                               notes := if e.notes.Some? then e.notes.value else table[t.id].notes)
  }

  /**
    Every entry of an accepted bulk entry names an editable record or a new one of its own: the record is written as
    the first entry naming it says, and the new one is added.
  */
  lemma BulkWritesEntries(r: Roster, table: seq<Record>, call: Call, n: nat)
    requires call.Bulk? && Try(r, table, call).Ok? && n < |call.entries|
    ensures call.entries[n].record.Some? || call.entries[n].cleaner.Some?
    ensures EntryNames(table, call.site, call.day, call.entries[n], Targets(r, table, call)[n])
    ensures Changes(table, call.entries[n], Targets(r, table, call)[n])
    ensures var targets, table' := Targets(r, table, call), Apply(r, table, call);
            if targets[n].Change? then
              (forall m :: 0 <= m < n ==> !Names(targets[m], targets[n].id)) ==> table'[targets[n].id] == targets[n].row
            else
              && AddedBehind(table', |table|, targets[n].row)
              && !Taken(table, targets[n].row)
              && (forall m :: 0 <= m < |targets| && m != n && targets[m].New? ==>
                    !SameKey(targets[m].row, targets[n].row))
  {
    var targets := Targets(r, table, call);
    ResolveNames(r, table, call.site, call.day, call.entries[n]);
    if targets[n].New? {
      NewEntryIsAdded(table, targets, n);
    } else if forall m :: 0 <= m < n ==> !Names(targets[m], targets[n].id) {
      FirstMentionDecides(table, targets, n, targets[n].id, targets[n].row);
    }
  }

  predicate AddedBehind(table: seq<Record>, n: nat, row: Record) {
    exists i :: n <= i < |table| && table[i] == row
  }

  lemma NewEntryIsAdded(table: seq<Record>, targets: seq<Target>, n: nat)
    requires n < |targets| && targets[n].New? && Insertable(table, NewRows(targets))
    ensures AddedBehind(Changed(table, targets) + NewRows(targets), |table|, targets[n].row)
    ensures !Taken(table, targets[n].row)
    ensures forall m :: 0 <= m < |targets| && m != n && targets[m].New? ==> !SameKey(targets[m].row, targets[n].row)
  {
    var k := NewRowOf(targets, n);
    var table' := Changed(table, targets) + NewRows(targets);
    assert table'[|table| + k] == targets[n].row;
    forall m | 0 <= m < |targets| && m != n && targets[m].New? ensures !SameKey(targets[m].row, targets[n].row) {
      var i, j := NewRowsInOrder(targets, if m < n then m else n, if m < n then n else m);
    }
  }

  /** And it writes nothing else: a record no entry names stays, and what is added is some entry's. */
  lemma BulkWritesNothingElse(r: Roster, table: seq<Record>, call: Call, i: nat)
    requires call.Bulk? && Try(r, table, call).Ok? && i < |Apply(r, table, call)|
    ensures var targets, row := Targets(r, table, call), Apply(r, table, call)[i];
            if i < |table| then (forall n :: 0 <= n < |targets| ==> !Names(targets[n], i)) ==> row == table[i]
            else exists n :: 0 <= n < |targets| && targets[n] == New(row)
  {
    WrittenRow(table, Targets(r, table, call), i);
  }

  lemma WrittenRow(table: seq<Record>, targets: seq<Target>, i: nat)
    requires i < |table| + |NewRows(targets)|
    ensures var row := (Changed(table, targets) + NewRows(targets))[i];
            if i < |table| then (forall n :: 0 <= n < |targets| ==> !Names(targets[n], i)) ==> row == table[i]
            else exists n :: 0 <= n < |targets| && targets[n] == New(row)
  {
    if i >= |table| {
      var n := NewRowOrigin(targets, i - |table|);
    } else if forall n :: 0 <= n < |targets| ==> !Names(targets[n], i) {
      UnmentionedStays(table, targets, i);
    }
  }

  /** What bulk entry asks of one entry: a shift as the site's mode has it, and an editable or a new record. */
  predicate EntryFits(r: Roster, table: seq<Record>, site: int, day: int, e: Entry)
    requires site in r.sites
  {
    && (r.sites[site] == FullTimeOnly ==> e.shift == None) && (r.sites[site] == ShiftOnly ==> e.shift != None)
    && match e.record
       case Some(id) =>
         id < |table| && table[id].site == site && table[id].date == day && table[id].review in {Draft, Returned}
       case None =>
         && e.cleaner.Some? && e.cleaner.value in r.cleaners
         && forall i :: 0 <= i < |table| && KeyIs(table[i], e.cleaner.value, site, e.shift, day)
              ==> table[i].review in {Draft, Returned}
  }

  /** What a refused entry was refused for: the first thing that was wrong. */
  predicate EntryRefusedFor(r: Roster, table: seq<Record>, site: int, day: int, e: Entry, error: Refusal)
    requires site in r.sites
  {
    var shiftFits := (r.sites[site] == FullTimeOnly ==> e.shift == None)
                     && (r.sites[site] == ShiftOnly ==> e.shift != None);
    match error
    case ShiftNotAllowed => r.sites[site] == FullTimeOnly && e.shift != None
    case ShiftRequired => r.sites[site] == ShiftOnly && e.shift == None
    case RecordNotFound =>
      && shiftFits && e.record.Some?
      && (e.record.value < |table| ==> table[e.record.value].site != site || table[e.record.value].date != day)
    case NotEditable =>
      && shiftFits
      && exists i :: 0 <= i < |table| && table[i].site == site && table[i].date == day
                     && table[i].review in {Submitted, Reviewed, Locked}
                     && (e.record == Some(i) || (e.record == None && e.cleaner == Some(table[i].cleaner)
                                                 && e.shift == table[i].shift))
    case NoTarget => shiftFits && e.record == None && e.cleaner == None
    case CleanerNotFound => shiftFits && e.record == None && e.cleaner.Some? && e.cleaner.value !in r.cleaners
    case _ => false
  }

  lemma EntryRefusalTells(r: Roster, table: seq<Record>, site: int, day: int, e: Entry)
    requires site in r.sites && Resolve(r, table, site, day, e).Err?
    ensures EntryRefusedFor(r, table, site, day, e, Resolve(r, table, site, day, e).error)
  {
  }

  /** What the entry then names: the record it gives, else the one with its key, else a new one with that key. */
  predicate EntryNames(table: seq<Record>, site: int, day: int, e: Entry, t: Target)
    requires e.record.Some? || e.cleaner.Some?
  {
    match e.record
    case Some(id) => Names(t, id)
    case None =>
      var cleaner := e.cleaner.value;
      if HasKey(table, cleaner, site, e.shift, day) then
        t.Change? && t.id < |table| && KeyIs(table[t.id], cleaner, site, e.shift, day)
      else
        t == New(Record(cleaner, site, e.shift, day, if e.mark == None then Scheduled else e.mark.value,
                        e.checkIn, e.checkOut, if e.notes == None then "" else e.notes.value, Draft, None, ""))
  }

  lemma ResolveNames(r: Roster, table: seq<Record>, site: int, day: int, e: Entry)
    requires site in r.sites && Resolve(r, table, site, day, e).Ok?
    ensures e.record.Some? || e.cleaner.Some?
    ensures EntryNames(table, site, day, e, Resolve(r, table, site, day, e).value)
    ensures Changes(table, e, Resolve(r, table, site, day, e).value)
  {
    if e.record.None? {
      var key := Placeholder(e.cleaner.value, site, e.shift, day);
      var found := Find(table, key, |table|);
      forall i | 0 <= i < |table| && KeyIs(table[i], e.cleaner.value, site, e.shift, day) ensures found.Some? {
        assert SameKey(table[i], key);
      }
      if found.Some? {
        assert KeyIs(table[found.value], e.cleaner.value, site, e.shift, day);
      }
    }
  }

  lemma ResolveMeans(r: Roster, table: seq<Record>, site: int, day: int, e: Entry)
    requires site in r.sites && KeysDistinct(table)
    ensures Resolve(r, table, site, day, e).Ok? <==> EntryFits(r, table, site, day, e)
  {
    if e.record.None? && e.cleaner.Some? {
      var key := Placeholder(e.cleaner.value, site, e.shift, day);
      var found := Find(table, key, |table|);
      forall i | 0 <= i < |table| && KeyIs(table[i], e.cleaner.value, site, e.shift, day) ensures found == Some(i) {
        assert SameKey(table[i], key);
        if found.Some? {
          assert SameKey(table[found.value], table[i]) && SameKey(table[i], table[found.value]);
        }
      }
      if found.Some? {
        assert KeyIs(table[found.value], e.cleaner.value, site, e.shift, day);
      }
    }
  }

  /** The entry asks for a record that is not there yet. */
  predicate AsksNew(table: seq<Record>, site: int, day: int, e: Entry) {
    e.record == None && e.cleaner.Some? && !HasKey(table, e.cleaner.value, site, e.shift, day)
  }

  /**
    A bulk entry is accepted exactly when its date is allowed, its site known, every entry fits, and no two entries
    ask for the same new record.
  */
  lemma BulkAcceptedWhen(r: Roster, table: seq<Record>, call: Call)
    requires call.Bulk? && KeysDistinct(table)
    ensures Try(r, table, call).Ok?
       <==> && (call.allowFuture || call.day <= call.today) && call.site in r.sites
            && (forall n :: 0 <= n < |call.entries| ==> EntryFits(r, table, call.site, call.day, call.entries[n]))
            && (forall m, n :: 0 <= m < n < |call.entries| && AsksNew(table, call.site, call.day, call.entries[m])
                  && AsksNew(table, call.site, call.day, call.entries[n])
                  ==> (call.entries[m].cleaner, call.entries[m].shift)
                      != (call.entries[n].cleaner, call.entries[n].shift))
  {
    if call.site in r.sites {
      AllResolve(r, table, call.site, call.day, call.entries);
      if ResolveAll(r, table, call.site, call.day, call.entries).Ok? {
        NewKeysApart(r, table, call.site, call.day, call.entries);
      }
    }
  }

  lemma {:induction false} AllResolve(r: Roster, table: seq<Record>, site: int, day: int, entries: seq<Entry>)
    requires site in r.sites && KeysDistinct(table)
    ensures ResolveAll(r, table, site, day, entries).Ok?
       <==> forall n :: 0 <= n < |entries| ==> EntryFits(r, table, site, day, entries[n])
  {
    if entries != [] {
      var init, last := entries[..|entries| - 1], entries[|entries| - 1];
      AllResolve(r, table, site, day, init);
      ResolveMeans(r, table, site, day, last);
      assert forall n :: 0 <= n < |init| ==> entries[n] == init[n];
    }
  }

  lemma NewKeysApart(r: Roster, table: seq<Record>, site: int, day: int, entries: seq<Entry>)
    requires site in r.sites && KeysDistinct(table) && ResolveAll(r, table, site, day, entries).Ok?
    ensures Insertable(table, NewRows(ResolveAll(r, table, site, day, entries).value))
       <==> forall m, n :: 0 <= m < n < |entries| && AsksNew(table, site, day, entries[m])
              && AsksNew(table, site, day, entries[n])
              ==> (entries[m].cleaner, entries[m].shift) != (entries[n].cleaner, entries[n].shift)
  {
    var targets := ResolveAll(r, table, site, day, entries).value;
    ResolvedEach(r, table, site, day, entries);
    forall n | 0 <= n < |entries|
      ensures targets[n].New? <==> AsksNew(table, site, day, entries[n])
      ensures targets[n].New? ==>
                && KeyIs(targets[n].row, entries[n].cleaner.value, site, entries[n].shift, day)
                && !Taken(table, targets[n].row)
    {
      ResolveNames(r, table, site, day, entries[n]);
      if targets[n].New? {
        HasKeyIsTaken(table, targets[n].row);
      }
    }
    InsertableMeans(table, targets);
  }

  lemma InsertableMeans(table: seq<Record>, targets: seq<Target>)
    requires forall n :: 0 <= n < |targets| && targets[n].New? ==> !Taken(table, targets[n].row)
    ensures Insertable(table, NewRows(targets))
       <==> forall m, n :: 0 <= m < n < |targets| && targets[m].New? && targets[n].New?
              ==> !SameKey(targets[m].row, targets[n].row)
  {
    var rows := NewRows(targets);
    forall k | 0 <= k < |rows| ensures !Taken(table, rows[k]) {
      var n := NewRowOrigin(targets, k);
    }
    if Insertable(table, rows) {
      forall m, n | 0 <= m < n < |targets| && targets[m].New? && targets[n].New?
        ensures !SameKey(targets[m].row, targets[n].row)
      {
        var i, j := NewRowsInOrder(targets, m, n);
      }
    } else {
      var i, j :| 0 <= i < j < |rows| && SameKey(rows[i], rows[j]);
      var m, n := NewRowOrigins(targets, i, j);
    }
  }

  lemma {:induction false} NewRowOrigins(targets: seq<Target>, i: nat, j: nat) returns (m: nat, n: nat)
    requires i < j < |NewRows(targets)|
    ensures m < n < |targets| && targets[m] == New(NewRows(targets)[i]) && targets[n] == New(NewRows(targets)[j])
  {
    var init := targets[..|targets| - 1];
    if j < |NewRows(init)| {
      m, n := NewRowOrigins(init, i, j);
    } else {
      m := NewRowOrigin(init, i);
      n := |init|;
    }
  }

  // ---- What generation adds ----

  ghost predicate PairsDistinct(pairs: seq<Pair>) {
    forall i, j :: 0 <= i < j < |pairs| ==> pairs[i] != pairs[j]
  }

  lemma {:induction false} FullTimeOrigin(r: Roster, site: int, day: int, n: nat, k: nat) returns (i: nat)
    requires n <= |r.assignments| && k < |FullTimePairs(r, site, day, n)|
    ensures i < n && Expected(r, r.assignments[i], site, day, FullTime)
    ensures FullTimePairs(r, site, day, n)[k] == (r.assignments[i].cleaner, None)
  {
    if k < |FullTimePairs(r, site, day, n - 1)| {
      i := FullTimeOrigin(r, site, day, n - 1, k);
    } else {
      i := n - 1;
    }
  }

  lemma {:induction false} ShiftOrigin(r: Roster, site: int, day: int, shift: Option<int>, n: nat, k: nat)
    returns (i: nat)
    requires n <= |r.bindings| && k < |ShiftPairs(r, site, day, shift, n)|
    ensures i < n && Bound(r, r.bindings[i], site, day, shift)
    ensures ShiftPairs(r, site, day, shift, n)[k]
            == (r.assignments[r.bindings[i].assignment].cleaner, Some(r.bindings[i].shift))
  {
    if k < |ShiftPairs(r, site, day, shift, n - 1)| {
      i := ShiftOrigin(r, site, day, shift, n - 1, k);
    } else {
      i := n - 1;
    }
  }

  lemma {:induction false} FullTimeDistinct(r: Roster, site: int, day: int, n: nat)
    requires RosterValid(r) && n <= |r.assignments|
    ensures PairsDistinct(FullTimePairs(r, site, day, n))
  {
    if n > 0 {
      FullTimeDistinct(r, site, day, n - 1);
      var init, all := FullTimePairs(r, site, day, n - 1), FullTimePairs(r, site, day, n);
      forall i, j | 0 <= i < j < |all| ensures all[i] != all[j] {
        if j == |init| {
          var a := FullTimeOrigin(r, site, day, n - 1, i);
          assert r.assignments[a].site == r.assignments[n - 1].site;
        }
      }
    }
  }

  lemma {:induction false} ShiftDistinct(r: Roster, site: int, day: int, shift: Option<int>, n: nat)
    requires RosterValid(r) && n <= |r.bindings|
    ensures PairsDistinct(ShiftPairs(r, site, day, shift, n))
  {
    if n > 0 {
      ShiftDistinct(r, site, day, shift, n - 1);
      var init, all := ShiftPairs(r, site, day, shift, n - 1), ShiftPairs(r, site, day, shift, n);
      forall i, j | 0 <= i < j < |all| ensures all[i] != all[j] {
        if j == |init| {
          var a := ShiftOrigin(r, site, day, shift, n - 1, i);
          if r.bindings[a].shift == r.bindings[n - 1].shift {
            BindingsDiffer(r, site, day, shift, a, n - 1);
          }
        }
      }
    }
  }

  lemma BindingsDiffer(r: Roster, site: int, day: int, shift: Option<int>, a: nat, b: nat)
    requires RosterValid(r) && a < b < |r.bindings|
    requires Bound(r, r.bindings[a], site, day, shift) && Bound(r, r.bindings[b], site, day, shift)
    requires r.bindings[a].shift == r.bindings[b].shift
    ensures r.assignments[r.bindings[a].assignment].cleaner != r.assignments[r.bindings[b].assignment].cleaner
  {
    var x, y := r.bindings[a].assignment, r.bindings[b].assignment;
    assert x != y;
    assert r.assignments[x].site == r.assignments[y].site;
  }

  /** The partial unique constraints make the scheduled pairs of a day distinct. */
  lemma ScheduledDistinct(r: Roster, site: int, day: int, shift: Option<int>)
    requires RosterValid(r) && site in r.sites
    ensures PairsDistinct(ScheduledPairs(r, site, day, shift))
  {
    FullTimeDistinct(r, site, day, |r.assignments|);
    ShiftDistinct(r, site, day, shift, |r.bindings|);
    var full := if r.sites[site] != ShiftOnly then FullTimePairs(r, site, day, |r.assignments|) else [];
    var pairs := ScheduledPairs(r, site, day, shift);
    forall i, j | 0 <= i < j < |pairs| ensures pairs[i] != pairs[j] {
      if i < |full| <= j {
        var a := FullTimeOrigin(r, site, day, |r.assignments|, i);
        var b := ShiftOrigin(r, site, day, shift, |r.bindings|, j - |full|);
      }
    }
  }

  /** An active cleaner's active full-time assignment to the site that runs on the day. */
  predicate WorksFullTime(r: Roster, a: Assignment, site: int, day: int) {
    && a.site == site && a.kind == FullTime && a.status == Active && a.cleaner in r.activeCleaners
    && a.start <= day && (a.end == None || day <= a.end.value)
  }

  /** An active binding that runs on the day, of an active cleaner's active shift assignment that does too. */
  predicate WorksShift(r: Roster, b: Binding, site: int, day: int, shift: int)
    requires b.assignment < |r.assignments|
  {
    var a := r.assignments[b.assignment];
    && a.site == site && a.kind == Shift && a.status == Active && a.cleaner in r.activeCleaners
    && a.start <= day && (a.end == None || day <= a.end.value)
    && b.active && b.shift == shift && b.from <= day && (b.to == None || day <= b.to.value)
  }

  /** Who is due at a site on a day: with no shift from full-time work, with a shift from a binding to it. */
  predicate OnDuty(r: Roster, site: int, day: int, filter: Option<int>, cleaner: int, shift: Option<int>)
    requires site in r.sites
  {
    match shift
    case None =>
      && r.sites[site] in {FullTimeOnly, FullTimeAndShift}
      && exists i :: 0 <= i < |r.assignments| && r.assignments[i].cleaner == cleaner
                     && WorksFullTime(r, r.assignments[i], site, day)
    case Some(s) =>
      && r.sites[site] in {ShiftOnly, FullTimeAndShift} && (filter == None || filter == Some(s))
      && exists i :: 0 <= i < |r.bindings| && r.bindings[i].assignment < |r.assignments|
                     && r.assignments[r.bindings[i].assignment].cleaner == cleaner
                     && WorksShift(r, r.bindings[i], site, day, s)
  }

  /** A cleaner is listed exactly when on duty; a filter narrows the shifts, not the full-time part. */
  lemma ScheduledIsOnDuty(r: Roster, site: int, day: int, filter: Option<int>, cleaner: int, shift: Option<int>)
    requires site in r.sites
    ensures (cleaner, shift) in ScheduledPairs(r, site, day, filter) <==> OnDuty(r, site, day, filter, cleaner, shift)
  {
    if (cleaner, shift) in ScheduledPairs(r, site, day, filter) {
      var n :| 0 <= n < |ScheduledPairs(r, site, day, filter)|
               && ScheduledPairs(r, site, day, filter)[n] == (cleaner, shift);
      ListedIsOnDuty(r, site, day, filter, n);
    }
    if OnDuty(r, site, day, filter, cleaner, shift) {
      if shift.None? {
        FullTimeIsListed(r, site, day, filter, cleaner);
      } else {
        ShiftIsListed(r, site, day, filter, cleaner, shift.value);
      }
    }
  }

  lemma ListedIsOnDuty(r: Roster, site: int, day: int, filter: Option<int>, n: nat)
    requires site in r.sites && n < |ScheduledPairs(r, site, day, filter)|
    ensures var pair := ScheduledPairs(r, site, day, filter)[n]; OnDuty(r, site, day, filter, pair.0, pair.1)
  {
    var full := if r.sites[site] != ShiftOnly then FullTimePairs(r, site, day, |r.assignments|) else [];
    if n < |full| {
      var i := FullTimeOrigin(r, site, day, |r.assignments|, n);
      assert WorksFullTime(r, r.assignments[i], site, day);
    } else {
      var i := ShiftOrigin(r, site, day, filter, |r.bindings|, n - |full|);
      assert WorksShift(r, r.bindings[i], site, day, r.bindings[i].shift);
    }
  }

  lemma FullTimeIsListed(r: Roster, site: int, day: int, filter: Option<int>, cleaner: int)
    requires site in r.sites && OnDuty(r, site, day, filter, cleaner, None)
    ensures (cleaner, None) in ScheduledPairs(r, site, day, filter)
  {
    var i :| 0 <= i < |r.assignments| && r.assignments[i].cleaner == cleaner
             && WorksFullTime(r, r.assignments[i], site, day);
    var n := FullTimePairOf(r, site, day, |r.assignments|, i);
    assert ScheduledPairs(r, site, day, filter)[n] == (cleaner, None);
  }

  lemma ShiftIsListed(r: Roster, site: int, day: int, filter: Option<int>, cleaner: int, shift: int)
    requires site in r.sites && OnDuty(r, site, day, filter, cleaner, Some(shift))
    ensures (cleaner, Some(shift)) in ScheduledPairs(r, site, day, filter)
  {
    var full := if r.sites[site] != ShiftOnly then FullTimePairs(r, site, day, |r.assignments|) else [];
    var i :| 0 <= i < |r.bindings| && r.bindings[i].assignment < |r.assignments|
             && r.assignments[r.bindings[i].assignment].cleaner == cleaner
             && WorksShift(r, r.bindings[i], site, day, shift);
    var n := ShiftPairOf(r, site, day, filter, |r.bindings|, i);
    assert ScheduledPairs(r, site, day, filter)[|full| + n] == (cleaner, Some(shift));
  }

  lemma {:induction false} ShiftPairOf(r: Roster, site: int, day: int, shift: Option<int>, n: nat, i: nat)
    returns (k: nat)
    requires i < n <= |r.bindings| && Bound(r, r.bindings[i], site, day, shift)
    ensures k < |ShiftPairs(r, site, day, shift, n)|
    ensures ShiftPairs(r, site, day, shift, n)[k]
            == (r.assignments[r.bindings[i].assignment].cleaner, Some(r.bindings[i].shift))
  {
    if i < n - 1 {
      k := ShiftPairOf(r, site, day, shift, n - 1, i);
    } else {
      k := |ShiftPairs(r, site, day, shift, n - 1)|;
    }
  }

  lemma ListIsWhoIsOnDuty(r: Roster, site: int, day: int, filter: Option<int>)
    requires site in r.sites
    ensures forall cleaner, s ::
              (cleaner, s) in ScheduledPairs(r, site, day, filter) <==> OnDuty(r, site, day, filter, cleaner, s)
  {
    forall cleaner, s
      ensures (cleaner, s) in ScheduledPairs(r, site, day, filter) <==> OnDuty(r, site, day, filter, cleaner, s)
    {
      ScheduledIsOnDuty(r, site, day, filter, cleaner, s);
    }
  }

  /** Some record of the table is the cleaner's, at the site, for the shift and day. */
  predicate HasKey(table: seq<Record>, cleaner: int, site: int, shift: Option<int>, day: int) {
    exists i :: 0 <= i < |table| && KeyIs(table[i], cleaner, site, shift, day)
  }

  predicate KeyIs(rec: Record, cleaner: int, site: int, shift: Option<int>, day: int) {
    rec.cleaner == cleaner && rec.site == site && rec.shift == shift && rec.date == day
  }

  lemma HasKeyIsTaken(table: seq<Record>, rec: Record)
    ensures HasKey(table, rec.cleaner, rec.site, rec.shift, rec.date) <==> Taken(table, rec)
  {
    if i :| 0 <= i < |table| && KeyIs(table[i], rec.cleaner, rec.site, rec.shift, rec.date) {
      assert SameKey(table[i], rec);
    }
    if i :| 0 <= i < |table| && SameKey(table[i], rec) {
      assert KeyIs(table[i], rec.cleaner, rec.site, rec.shift, rec.date);
    }
  }

  lemma {:induction false} PlaceholderFor(table: seq<Record>, site: int, day: int, shift: Option<int>,
                                          pairs: seq<Pair>, n: nat) returns (k: nat)
    requires n < |pairs| && !Existing(table, site, day, shift, pairs[n])
    ensures k < |Placeholders(table, site, day, shift, pairs)|
    ensures Placeholders(table, site, day, shift, pairs)[k] == Placeholder(pairs[n].0, site, pairs[n].1, day)
  {
    var init := pairs[..|pairs| - 1];
    if n < |init| {
      k := PlaceholderFor(table, site, day, shift, init, n);
    } else {
      k := |Placeholders(table, site, day, shift, init)|;
    }
  }

  lemma {:induction false} PlaceholdersApart(table: seq<Record>, site: int, day: int, shift: Option<int>,
                                             pairs: seq<Pair>)
    requires PairsDistinct(pairs)
    ensures KeysDistinct(Placeholders(table, site, day, shift, pairs))
  {
    if pairs != [] {
      var init := pairs[..|pairs| - 1];
      PlaceholdersApart(table, site, day, shift, init);
      var before, all := Placeholders(table, site, day, shift, init), Placeholders(table, site, day, shift, pairs);
      forall i, j | 0 <= i < j < |all| ensures !SameKey(all[i], all[j]) {
        if j == |before| {
          PlaceholdersOfPairs(table, site, day, shift, init, i);
          var n :| 0 <= n < |init| && before[i] == Placeholder(init[n].0, site, init[n].1, day);
          assert pairs[n] != pairs[|init|];
        }
      }
    }
  }

  /** Pairs that a filter leaves out of the existing keys although they are there: the full-time ones. */
  predicate Overlooked(r: Roster, table: seq<Record>, site: int, day: int, shift: Option<int>)
    requires site in r.sites
  {
    && shift.Some? && r.sites[site] != ShiftOnly
    && exists i :: 0 <= i < |r.assignments| && WorksFullTime(r, r.assignments[i], site, day)
         && HasKey(table, r.assignments[i].cleaner, site, None, day)
  }

  lemma {:induction false} FullTimePairOf(r: Roster, site: int, day: int, n: nat, i: nat) returns (k: nat)
    requires i < n <= |r.assignments| && Expected(r, r.assignments[i], site, day, FullTime)
    ensures k < |FullTimePairs(r, site, day, n)|
    ensures FullTimePairs(r, site, day, n)[k] == (r.assignments[i].cleaner, None)
  {
    if i < n - 1 {
      k := FullTimePairOf(r, site, day, n - 1, i);
    } else {
      k := |FullTimePairs(r, site, day, n - 1)|;
    }
  }

  /**
    Generating a known site's sheet aborts exactly when a shift filter is given, the site has full-time work,
    and some full-time cleaner expected that day already has a record: those are listed but overlooked.
  */
  lemma GenerateAbortsWhenOverlooked(r: Roster, table: seq<Record>, site: int, day: int, shift: Option<int>)
    requires RosterValid(r) && site in r.sites
    ensures Try(r, table, Generate(site, day, shift)).Err? <==> Overlooked(r, table, site, day, shift)
  {
    var pairs := ScheduledPairs(r, site, day, shift);
    var rows := Placeholders(table, site, day, shift, pairs);
    ScheduledDistinct(r, site, day, shift);
    PlaceholdersApart(table, site, day, shift, pairs);
    if Overlooked(r, table, site, day, shift) {
      var i :| 0 <= i < |r.assignments| && WorksFullTime(r, r.assignments[i], site, day)
               && HasKey(table, r.assignments[i].cleaner, site, None, day);
      var n := FullTimePairOf(r, site, day, |r.assignments|, i);
      assert pairs[n] == (r.assignments[i].cleaner, None);
      var k := PlaceholderFor(table, site, day, shift, pairs, n);
      HasKeyIsTaken(table, rows[k]);
    } else {
      forall k | 0 <= k < |rows| ensures !Taken(table, rows[k]) {
        NotOverlooked(r, table, site, day, shift, k);
      }
    }
  }

  lemma NotOverlooked(r: Roster, table: seq<Record>, site: int, day: int, shift: Option<int>, k: nat)
    requires site in r.sites && !Overlooked(r, table, site, day, shift)
    requires k < |Placeholders(table, site, day, shift, ScheduledPairs(r, site, day, shift))|
    ensures !Taken(table, Placeholders(table, site, day, shift, ScheduledPairs(r, site, day, shift))[k])
  {
    var pairs := ScheduledPairs(r, site, day, shift);
    var rows := Placeholders(table, site, day, shift, pairs);
    PlaceholdersOfPairs(table, site, day, shift, pairs, k);
    var n :| 0 <= n < |pairs| && !Existing(table, site, day, shift, pairs[n])
             && rows[k] == Placeholder(pairs[n].0, site, pairs[n].1, day);
    PairNotHidden(r, table, site, day, shift, n);
    HasKeyIsTaken(table, rows[k]);
  }

  lemma PairNotHidden(r: Roster, table: seq<Record>, site: int, day: int, shift: Option<int>, n: nat)
    requires site in r.sites && !Overlooked(r, table, site, day, shift)
    requires n < |ScheduledPairs(r, site, day, shift)|
    requires var pair := ScheduledPairs(r, site, day, shift)[n]; !Existing(table, site, day, shift, pair)
    ensures var pair := ScheduledPairs(r, site, day, shift)[n]; !HasKey(table, pair.0, site, pair.1, day)
  {
    var pair := ScheduledPairs(r, site, day, shift)[n];
    var full := if r.sites[site] != ShiftOnly then FullTimePairs(r, site, day, |r.assignments|) else [];
    if n < |full| {
      var i := FullTimeOrigin(r, site, day, |r.assignments|, n);
    } else {
      var i := ShiftOrigin(r, site, day, shift, |r.bindings|, n - |full|);
    }
    forall j | 0 <= j < |table| && KeyIs(table[j], pair.0, site, pair.1, day)
      ensures InGroup(table[j], site, day, shift)
    {
    }
  }

  /** A generated sheet holds the keys there were and those of the scheduled pairs, and leaves old records alone. */
  lemma GenerateAddsScheduled(r: Roster, table: seq<Record>, site: int, day: int, shift: Option<int>,
                              cleaner: int, s: int, sh: Option<int>, d: int)
    requires site in r.sites && Try(r, table, Generate(site, day, shift)).Ok?
    ensures var table' := Apply(r, table, Generate(site, day, shift));
            && table <= table'
            && (HasKey(table', cleaner, s, sh, d)
                <==> HasKey(table, cleaner, s, sh, d)
                     || (s == site && d == day && OnDuty(r, site, day, shift, cleaner, sh)))
  {
    ScheduledIsOnDuty(r, site, day, shift, cleaner, sh);
    var pairs := ScheduledPairs(r, site, day, shift);
    var rows := Placeholders(table, site, day, shift, pairs);
    if HasKey(table, cleaner, s, sh, d) {
      KeysStay(table, rows, cleaner, s, sh, d);
    }
    if s == site && d == day && (cleaner, sh) in pairs {
      var n :| 0 <= n < |pairs| && pairs[n] == (cleaner, sh);
      PairGetsKey(table, site, day, shift, pairs, n);
    }
    if HasKey(table + rows, cleaner, s, sh, d) && !HasKey(table, cleaner, s, sh, d) {
      AddedKeyIsPair(table, site, day, shift, pairs, cleaner, s, sh, d);
    }
  }

  lemma KeysStay(table: seq<Record>, rows: seq<Record>, cleaner: int, s: int, sh: Option<int>, d: int)
    requires HasKey(table, cleaner, s, sh, d)
    ensures HasKey(table + rows, cleaner, s, sh, d)
  {
    var i :| 0 <= i < |table| && KeyIs(table[i], cleaner, s, sh, d);
    assert KeyIs((table + rows)[i], cleaner, s, sh, d);
  }

  lemma PairGetsKey(table: seq<Record>, site: int, day: int, shift: Option<int>, pairs: seq<Pair>, n: nat)
    requires n < |pairs|
    ensures HasKey(table + Placeholders(table, site, day, shift, pairs), pairs[n].0, site, pairs[n].1, day)
  {
    var rows := Placeholders(table, site, day, shift, pairs);
    if Existing(table, site, day, shift, pairs[n]) {
      var i :| 0 <= i < |table| && InGroup(table[i], site, day, shift)
               && table[i].cleaner == pairs[n].0 && table[i].shift == pairs[n].1;
      assert KeyIs((table + rows)[i], pairs[n].0, site, pairs[n].1, day);
    } else {
      var k := PlaceholderFor(table, site, day, shift, pairs, n);
      assert KeyIs((table + rows)[|table| + k], pairs[n].0, site, pairs[n].1, day);
    }
  }

  lemma AddedKeyIsPair(table: seq<Record>, site: int, day: int, shift: Option<int>, pairs: seq<Pair>,
                       cleaner: int, s: int, sh: Option<int>, d: int)
    requires HasKey(table + Placeholders(table, site, day, shift, pairs), cleaner, s, sh, d)
    requires !HasKey(table, cleaner, s, sh, d)
    ensures s == site && d == day && (cleaner, sh) in pairs
  {
    var rows := Placeholders(table, site, day, shift, pairs);
    var i :| 0 <= i < |table + rows| && KeyIs((table + rows)[i], cleaner, s, sh, d);
    PlaceholdersOfPairs(table, site, day, shift, pairs, i - |table|);
  }

  /** What generation adds are untouched drafts of the site and day. */
  lemma GeneratedRowsAreBlank(r: Roster, table: seq<Record>, site: int, day: int, shift: Option<int>, i: nat)
    requires |table| <= i < |Apply(r, table, Generate(site, day, shift))|
    ensures var row := Apply(r, table, Generate(site, day, shift))[i];
            row == Record(row.cleaner, site, row.shift, day, Scheduled, None, None, "", Draft, None, "")
  {
    PlaceholdersOfPairs(table, site, day, shift, ScheduledPairs(r, site, day, shift), i - |table|);
  }

  /** Old records stay; with the new ones, who had a record has one, and who is on duty; the new ones are untouched. */
  ghost predicate Generated(r: Roster, table: seq<Record>, site: int, day: int, shift: Option<int>, table': seq<Record>)
    requires site in r.sites
  {
    && table <= table'
    && (forall c, s, sh, d :: HasKey(table', c, s, sh, d)
          <==> HasKey(table, c, s, sh, d) || (s == site && d == day && OnDuty(r, site, day, shift, c, sh)))
    && (forall i :: |table| <= i < |table'| ==>
          var row := table'[i];
          row == Record(row.cleaner, site, row.shift, day, Scheduled, None, None, "", Draft, None, ""))
  }

  lemma GenerateAnswers(r: Roster, table: seq<Record>, site: int, day: int, shift: Option<int>)
    requires site in r.sites
    ensures var call := Generate(site, day, shift);
            Try(r, table, call).Ok? ==> Generated(r, table, site, day, shift, Apply(r, table, call))
  {
    var call := Generate(site, day, shift);
    if Try(r, table, call).Ok? {
      forall c, s, sh, d
        ensures HasKey(Apply(r, table, call), c, s, sh, d)
           <==> HasKey(table, c, s, sh, d) || (s == site && d == day && OnDuty(r, site, day, shift, c, sh))
      {
        GenerateAddsScheduled(r, table, site, day, shift, c, s, sh, d);
      }
      GenerateAddsScheduled(r, table, site, day, shift, 0, site, None, day);
      forall i | |table| <= i < |Apply(r, table, call)|
        ensures var row := Apply(r, table, call)[i];
                row == Record(row.cleaner, site, row.shift, day, Scheduled, None, None, "", Draft, None, "")
      {
        GeneratedRowsAreBlank(r, table, site, day, shift, i);
      }
    }
  }

  lemma {:induction false} NoPlaceholders(table: seq<Record>, site: int, day: int, shift: Option<int>, pairs: seq<Pair>)
    requires forall n :: 0 <= n < |pairs| ==> Existing(table, site, day, shift, pairs[n])
    ensures Placeholders(table, site, day, shift, pairs) == []
  {
    if pairs != [] {
      assert Existing(table, site, day, shift, pairs[|pairs| - 1]);
      NoPlaceholders(table, site, day, shift, pairs[..|pairs| - 1]);
    }
  }

  /** Without a shift filter, or at a shift site, generating never aborts, and repeating it adds nothing. */
  lemma GenerateIsIdempotent(r: Roster, table: seq<Record>, site: int, day: int, shift: Option<int>)
    requires RosterValid(r) && site in r.sites
    requires shift.None? || r.sites[site] == ShiftOnly
    ensures var call := Generate(site, day, shift);
            Try(r, table, call).Ok? && Try(r, Apply(r, table, call), call) == Ok(Apply(r, table, call))
  {
    var call := Generate(site, day, shift);
    GenerateAbortsWhenOverlooked(r, table, site, day, shift);
    var table' := Apply(r, table, call);
    var pairs := ScheduledPairs(r, site, day, shift);
    forall n | 0 <= n < |pairs| ensures Existing(table', site, day, shift, pairs[n]) {
      GenerateAddsScheduled(r, table, site, day, shift, pairs[n].0, site, pairs[n].1, day);
      ScheduledIsOnDuty(r, site, day, shift, pairs[n].0, pairs[n].1);
      assert pairs[n] == (pairs[n].0, pairs[n].1) && pairs[n] in pairs;
      var i :| 0 <= i < |table'| && KeyIs(table'[i], pairs[n].0, site, pairs[n].1, day);
      if r.sites[site] == ShiftOnly {
        var b := ShiftOrigin(r, site, day, shift, |r.bindings|, n);
      }
      assert InGroup(table'[i], site, day, shift);
    }
    NoPlaceholders(table', site, day, shift, pairs);
    assert table' + [] == table';
  }

  /** With a filter at a site with full-time work, the repeat aborts as soon as one full-time cleaner is expected. */
  lemma FilteredRepeatAborts(r: Roster, table: seq<Record>, site: int, day: int, shift: int)
    requires RosterValid(r) && site in r.sites && r.sites[site] != ShiftOnly
    requires Try(r, table, Generate(site, day, Some(shift))).Ok?
    ensures Try(r, Apply(r, table, Generate(site, day, Some(shift))), Generate(site, day, Some(shift))).Err?
       <==> exists i :: 0 <= i < |r.assignments| && WorksFullTime(r, r.assignments[i], site, day)
  {
    var table' := Apply(r, table, Generate(site, day, Some(shift)));
    GenerateAbortsWhenOverlooked(r, table', site, day, Some(shift));
    forall i | 0 <= i < |r.assignments| && WorksFullTime(r, r.assignments[i], site, day)
      ensures HasKey(table', r.assignments[i].cleaner, site, None, day)
    {
      GenerateAddsScheduled(r, table, site, day, Some(shift), r.assignments[i].cleaner, site, None, day);
    }
  }

  /** It happens: at a site with one full-time cleaner a filtered sheet is generated, and the same call then aborts. */
  lemma FilteredRepeatHappens(site: int, day: int, shift: int, cleaner: int)
    ensures var expected := Assignment(cleaner, site, FullTime, Active, day, None);
            var r := Roster(map[site := FullTimeAndShift], {cleaner}, {cleaner}, [expected], [], 3);
            var call := Generate(site, day, Some(shift));
            RosterValid(r) && Try(r, Run([]), call).Ok? && Try(r, Run([(r, call)]), call).Err?
  {
    var expected := Assignment(cleaner, site, FullTime, Active, day, None);
    var r := Roster(map[site := FullTimeAndShift], {cleaner}, {cleaner}, [expected], [], 3);
    var call := Generate(site, day, Some(shift));
    assert WorksFullTime(r, r.assignments[0], site, day);
    GenerateAbortsWhenOverlooked(r, [], site, day, Some(shift));
    FilteredRepeatAborts(r, [], site, day, shift);
    RunOneMore([], r, call);
    assert [] + [(r, call)] == [(r, call)];
  }

  // ---- The service ----

  class Engine {
    const roster: Roster
    var table: seq<Record>

    constructor (roster: Roster)
      ensures this.roster == roster && table == []
    {
      this.roster := roster;
      table := [];
    }

    /** Builds the list of scheduled pairs: full-time assignments first, then shift bindings. */
    method ListScheduled(site: int, day: int, shift: Option<int>) returns (pairs: seq<Pair>)
      requires site in roster.sites
      ensures pairs == ScheduledPairs(roster, site, day, shift)
      ensures forall cleaner, s :: (cleaner, s) in pairs <==> OnDuty(roster, site, day, shift, cleaner, s)
    {

      var mode := roster.sites[site];
      pairs := [];
      if mode != ShiftOnly {
        for i := 0 to |roster.assignments|
          invariant pairs == FullTimePairs(roster, site, day, i)
        {
          if Expected(roster, roster.assignments[i], site, day, FullTime) {
            pairs := pairs + [(roster.assignments[i].cleaner, None)];
          }
        }
      }
      ghost var full := pairs;
      if mode != FullTimeOnly {
        for i := 0 to |roster.bindings|
          invariant pairs == full + ShiftPairs(roster, site, day, shift, i)
        {
          var b := roster.bindings[i];
          if Bound(roster, b, site, day, shift) {
            pairs := pairs + [(roster.assignments[b.assignment].cleaner, Some(b.shift))];
          }
        }
      }
      ListIsWhoIsOnDuty(roster, site, day, shift);
    }

    /** The records of a group. */
    method DayRecords(site: int, day: int, shift: Option<int>) returns (records: seq<Record>)
      ensures records == Where(table, Group(site, day, shift))
    {
      records := [];
      for i := 0 to |table|
        invariant records == Where(table[..i], Group(site, day, shift))
      {
        assert table[..i + 1][..i] == table[..i];
        if InGroup(table[i], site, day, shift) {
          records := records + [table[i]];
        }
      }
      assert table[..|table|] == table;
    }

    method GenerateSheet(site: int, day: int, shift: Option<int>) returns (r: Result<seq<Record>, Refusal>)
      modifies this
      ensures table == Apply(roster, old(table), Generate(site, day, shift))
      ensures r.Err? ==> Try(roster, old(table), Generate(site, day, shift)) == Err(r.error)
      ensures r.Ok? ==> Try(roster, old(table), Generate(site, day, shift)).Ok?
                        && r.value == Where(table, Group(site, day, shift))
      ensures r.Ok? ==> site in roster.sites && Generated(roster, old(table), site, day, shift, table)
    {
      if site !in roster.sites {
        return Err(SiteNotFound);
      }
      GenerateAnswers(roster, table, site, day, shift);
      var pairs := ListScheduled(site, day, shift);
      var toCreate := [];
      for n := 0 to |pairs|
        invariant table == old(table)
        invariant toCreate == Placeholders(table, site, day, shift, pairs[..n])
      {
        assert pairs[..n + 1][..n] == pairs[..n];
        if !Existing(table, site, day, shift, pairs[n]) {
          toCreate := toCreate + [Placeholder(pairs[n].0, site, pairs[n].1, day)];
        }
      }
      assert pairs[..|pairs|] == pairs;
      if !Insertable(table, toCreate) {
        return Err(Duplicate);
      }
      table := table + toCreate;
      var records := DayRecords(site, day, shift);
      return Ok(records);
    }

    /** Resolves every entry before anything is written, so one bad entry leaves all records alone. */
    method BulkUpsert(site: int, day: int, entries: seq<Entry>, shift: Option<int>, today: int, allowFuture: bool)
      returns (r: Result<seq<Record>, Refusal>)
      modifies this
      ensures table == Apply(roster, old(table), Bulk(site, day, entries, today, allowFuture))
      ensures r.Err? ==> Try(roster, old(table), Bulk(site, day, entries, today, allowFuture)) == Err(r.error)
      ensures r.Ok? ==> Try(roster, old(table), Bulk(site, day, entries, today, allowFuture)).Ok?
                        && r.value == Where(table, Group(site, day, shift))
    {
      if day > today && !allowFuture {
        return Err(FutureDate);
      }
      if site !in roster.sites {
        return Err(SiteNotFound);
      }
      var targets: seq<Target> := [];
      for n := 0 to |entries|
        invariant table == old(table)
        invariant ResolveAll(roster, table, site, day, entries[..n]) == Ok(targets)
      {
        var target := Resolve(roster, table, site, day, entries[n]);
        assert entries[..n + 1][..n] == entries[..n];
        if target.Err? {
          FirstErrorStays(roster, table, site, day, entries, n + 1);
          return Err(target.error);
        }
        targets := targets + [target.value];
      }
      assert entries[..|entries|] == entries;
      var rows := NewRows(targets);
      if !Insertable(table, rows) {
        return Err(Duplicate);
      }
      table := Changed(table, targets) + rows;
      var records := DayRecords(site, day, shift);
      return Ok(records);
    }

    method RecordSingle(id: nat, mark: Mark, checkIn: Option<int>, checkOut: Option<int>, notes: string)
      returns (r: Result<(), Refusal>)
      modifies this
      ensures table == Apply(roster, old(table), Single(id, mark, checkIn, checkOut, notes))
      ensures r.Err? ==> Try(roster, old(table), Single(id, mark, checkIn, checkOut, notes)) == Err(r.error)
      ensures r.Ok? ==> id < |old(table)| && Editable(old(table)[id])
                        && table[id].mark == mark && table[id].checkIn == checkIn && table[id].checkOut == checkOut
                        && table[id].notes == if notes != "" then notes else old(table)[id].notes
      ensures r.Ok? <==> Admissible(old(table), Single(id, mark, checkIn, checkOut, notes))
      ensures if r.Ok? then WritesOnly(roster, old(table), Single(id, mark, checkIn, checkOut, notes), table)
              else table == old(table)
    {
      CallAnswers(roster, table, Single(id, mark, checkIn, checkOut, notes));
      if id >= |table| {
        return Err(RecordNotFound);
      }
      var rec := table[id];
      if !Editable(rec) {
        return Err(NotEditable);
      }
      rec := rec.(mark := mark, checkIn := checkIn, checkOut := checkOut);
      if notes != "" {
        rec := rec.(notes := notes);
      }
      table := table[id := rec];
      return Ok(());
    }

    /** The records of a group, and whether any of them is still unmarked. */
    method GroupState(site: int, day: int, shift: Option<int>) returns (size: nat, unmarked: bool)
      ensures size == |Where(table, Group(site, day, shift))|
      ensures unmarked == Any(table, Unmarked(site, day, shift))
    {
      size, unmarked := 0, false;
      for i := 0 to |table|
        invariant size == |Where(table[..i], Group(site, day, shift))|
        invariant unmarked <==> exists k :: 0 <= k < i && Unmarked(site, day, shift)(table[k])
      {
        assert table[..i + 1][..i] == table[..i];
        if InGroup(table[i], site, day, shift) {
          size := size + 1;
          if table[i].mark == Scheduled {
            unmarked := true;
          }
        }
      }
      assert table[..|table|] == table;
    }

    /** Sets every record of a group to SUBMITTED, whatever its review status was. */
    method SubmitEach(site: int, day: int, shift: Option<int>, now: int)
      modifies this
      ensures table == Each(old(table), SubmitRow(site, day, shift, now))
    {
      ghost var f := SubmitRow(site, day, shift, now);
      for i := 0 to |table|
        invariant |table| == |old(table)|
        invariant forall k :: 0 <= k < i ==> table[k] == f(old(table)[k])
        invariant forall k :: i <= k < |table| ==> table[k] == old(table)[k]
      {
        if InGroup(table[i], site, day, shift) {
          table := table[i := table[i].(review := Submitted, submittedAt := Some(now))];
        }
      }
    }

    method SubmitDaily(site: int, day: int, shift: Option<int>, permitted: bool, now: int)
      returns (r: Result<nat, Refusal>)
      modifies this
      ensures table == Apply(roster, old(table), Submit(site, day, shift, permitted, now))
      ensures r.Err? ==> Try(roster, old(table), Submit(site, day, shift, permitted, now)) == Err(r.error)
      ensures r.Ok? ==> Try(roster, old(table), Submit(site, day, shift, permitted, now)).Ok?
      ensures r.Ok? ==> r.value == |Where(old(table), Group(site, day, shift))| > 0
      ensures r.Ok? <==> Admissible(old(table), Submit(site, day, shift, permitted, now))
      ensures if r.Ok? then WritesOnly(roster, old(table), Submit(site, day, shift, permitted, now), table)
              else table == old(table)
    {
      CallAnswers(roster, table, Submit(site, day, shift, permitted, now));
      if !permitted {
        return Err(NotPermitted);
      }
      var size, unmarked := GroupState(site, day, shift);
      WhereEmpty(table, Group(site, day, shift));
      if size == 0 {
        return Err(NothingToSubmit);
      }
      if unmarked {
        return Err(StillScheduled);
      }
      SubmitEach(site, day, shift, now);
      return Ok(size);
    }

    method ReturnOne(id: nat, reason: string) returns (r: Result<(), Refusal>)
      modifies this
      ensures table == Apply(roster, old(table), ReturnRecord(id, reason))
      ensures r.Err? ==> Try(roster, old(table), ReturnRecord(id, reason)) == Err(r.error)
      ensures r.Ok? ==> id < |table| && table[id].review == Returned
      ensures r.Ok? <==> Admissible(old(table), ReturnRecord(id, reason))
      ensures if r.Ok? then WritesOnly(roster, old(table), ReturnRecord(id, reason), table)
              else table == old(table)
    {
      CallAnswers(roster, table, ReturnRecord(id, reason));
      if id >= |table| {
        return Err(RecordNotFound);
      }
      if table[id].review == Locked {
        return Err(IsLocked);
      }
      table := table[id := table[id].(review := Returned, returnReason := reason)];
      return Ok(());
    }

    /** Returns every record of a group that is not locked. */
    method ReturnEach(site: int, day: int, shift: Option<int>, reason: string) returns (n: nat)
      modifies this
      ensures table == Each(old(table), ReturnRow(site, day, shift, reason))
      ensures n == |Where(old(table), Returnable(site, day, shift))|
    {
      n := 0;
      ghost var f := ReturnRow(site, day, shift, reason);
      for i := 0 to |table|
        invariant |table| == |old(table)|
        invariant forall k :: 0 <= k < i ==> table[k] == f(old(table)[k])
        invariant forall k :: i <= k < |table| ==> table[k] == old(table)[k]
        invariant n == |Where(old(table)[..i], Returnable(site, day, shift))|
      {
        assert old(table)[..i + 1][..i] == old(table)[..i];
        if InGroup(table[i], site, day, shift) && table[i].review != Locked {
          table := table[i := table[i].(review := Returned, returnReason := reason)];
          n := n + 1;
        }
      }
      assert old(table)[..|table|] == old(table);
    }

    method ReturnDay(site: int, day: int, shift: Option<int>, permitted: bool, reason: string)
      returns (r: Result<nat, Refusal>)
      modifies this
      ensures table == Apply(roster, old(table), ReturnGroup(site, day, shift, permitted, reason))
      ensures r.Err? ==> Try(roster, old(table), ReturnGroup(site, day, shift, permitted, reason)) == Err(r.error)
      ensures r.Ok? ==> Try(roster, old(table), ReturnGroup(site, day, shift, permitted, reason)).Ok?
      ensures r.Ok? ==> r.value == |Where(old(table), Returnable(site, day, shift))| > 0
      ensures r.Ok? <==> Admissible(old(table), ReturnGroup(site, day, shift, permitted, reason))
      ensures if r.Ok? then WritesOnly(roster, old(table), ReturnGroup(site, day, shift, permitted, reason), table)
              else table == old(table)
    {
      CallAnswers(roster, table, ReturnGroup(site, day, shift, permitted, reason));
      if !permitted {
        return Err(NotPermitted);
      }
      WhereEmpty(table, Returnable(site, day, shift));
      if Where(table, Returnable(site, day, shift)) == [] {
        ReturnNothing(table, site, day, shift, reason);
      }
      var n := ReturnEach(site, day, shift, reason);
      return if n == 0 then Err(NothingToReturn) else Ok(n);
    }

    /** Locks a site's reviewed records that are old enough, of whatever day. */
    method LockIfRequired(site: int, shift: Option<int>, today: int) returns (n: nat)
      modifies this
      ensures table == Apply(roster, old(table), Lock(site, shift, today))
      ensures table == Each(old(table), LockRow(site, shift, today - roster.lockAfterDays))
      ensures n == |Where(old(table), Lockable(site, shift, today - roster.lockAfterDays))|
      ensures WritesOnly(roster, old(table), Lock(site, shift, today), table)
    {
      CallAnswers(roster, table, Lock(site, shift, today));
      n := LockEach(site, shift, today - roster.lockAfterDays);
    }

    method LockEach(site: int, shift: Option<int>, cutoff: int) returns (n: nat)
      modifies this
      ensures table == Each(old(table), LockRow(site, shift, cutoff))
      ensures n == |Where(old(table), Lockable(site, shift, cutoff))|
    {
      n := 0;
      ghost var f := LockRow(site, shift, cutoff);
      for i := 0 to |table|
        invariant |table| == |old(table)|
        invariant forall k :: 0 <= k < i ==> table[k] == f(old(table)[k])
        invariant forall k :: i <= k < |table| ==> table[k] == old(table)[k]
        invariant n == |Where(old(table)[..i], Lockable(site, shift, cutoff))|
      {
        assert old(table)[..i + 1][..i] == old(table)[..i];
        if Due(table[i], site, shift, cutoff) {
          table := table[i := table[i].(review := Locked)];
          n := n + 1;
        }
      }
      assert old(table)[..|table|] == old(table);
    }

    /** Reviews every submitted record of a group. */
    method ReviewEach(site: int, day: int, shift: Option<int>) returns (n: nat)
      modifies this
      ensures table == Each(old(table), ReviewRow(site, day, shift))
      ensures n == |Where(old(table), Reviewable(site, day, shift))|
    {
      n := 0;
      ghost var f := ReviewRow(site, day, shift);
      for i := 0 to |table|
        invariant |table| == |old(table)|
        invariant forall k :: 0 <= k < i ==> table[k] == f(old(table)[k])
        invariant forall k :: i <= k < |table| ==> table[k] == old(table)[k]
        invariant n == |Where(old(table)[..i], Reviewable(site, day, shift))|
      {
        assert old(table)[..i + 1][..i] == old(table)[..i];
        if InGroup(table[i], site, day, shift) && table[i].review == Submitted {
          table := table[i := table[i].(review := Reviewed)];
          n := n + 1;
        }
      }
      assert old(table)[..|table|] == old(table);
    }

    method ReviewDay(site: int, day: int, shift: Option<int>, permitted: bool, today: int)
      returns (r: Result<nat, Refusal>)
      modifies this
      ensures table == Apply(roster, old(table), ReviewGroup(site, day, shift, permitted, today))
      ensures r.Err? ==> Try(roster, old(table), ReviewGroup(site, day, shift, permitted, today)) == Err(r.error)
      ensures r.Ok? ==> Try(roster, old(table), ReviewGroup(site, day, shift, permitted, today)).Ok?
      ensures r.Ok? ==> r.value == |Where(old(table), Reviewable(site, day, shift))| > 0
      ensures r.Ok? <==> Admissible(old(table), ReviewGroup(site, day, shift, permitted, today))
      ensures if r.Ok? then WritesOnly(roster, old(table), ReviewGroup(site, day, shift, permitted, today), table)
              else table == old(table)
    {
      CallAnswers(roster, table, ReviewGroup(site, day, shift, permitted, today));
      if !permitted {
        return Err(NotPermitted);
      }
      ReviewGroupMeans(roster, table, site, day, shift, today);
      var n := ReviewEach(site, day, shift);
      if n == 0 {
        return Err(NothingToReview);
      }
      var locked := LockIfRequired(site, shift, today);
      return Ok(n);
    }

    method ReviewOne(id: nat) returns (r: Result<(), Refusal>)
      modifies this
      ensures table == Apply(roster, old(table), ReviewRecord(id))
      ensures r.Err? ==> Try(roster, old(table), ReviewRecord(id)) == Err(r.error)
      ensures r.Ok? ==> id < |table| && old(table)[id].review == Submitted && table[id].review == Reviewed
      ensures r.Ok? <==> Admissible(old(table), ReviewRecord(id))
      ensures if r.Ok? then WritesOnly(roster, old(table), ReviewRecord(id), table)
              else table == old(table)
    {
      CallAnswers(roster, table, ReviewRecord(id));
      if id >= |table| {
        return Err(RecordNotFound);
      }
      if table[id].review != Submitted {
        return Err(InvalidReview);
      }
      table := table[id := table[id].(review := Reviewed)];
      return Ok(());
    }
  }

  /** The records with a property, in key order. */
  function Where(table: seq<Record>, p: Record -> bool): seq<Record> {
    if table == [] then []
    else Where(table[..|table| - 1], p) + if p(table[|table| - 1]) then [table[|table| - 1]] else []
  }

  lemma {:induction false} WhereEmpty(table: seq<Record>, p: Record -> bool)
    ensures Where(table, p) != [] <==> Any(table, p)
  {
    if table != [] {
      var init := table[..|table| - 1];
      WhereEmpty(init, p);
      if i :| 0 <= i < |init| && p(init[i]) {
        assert p(table[i]);
      }
    }
  }

  lemma ReturnNothing(table: seq<Record>, site: int, day: int, shift: Option<int>, reason: string)
    requires Where(table, Returnable(site, day, shift)) == []
    ensures Each(table, ReturnRow(site, day, shift, reason)) == table
  {
    WhereEmpty(table, Returnable(site, day, shift));
    assert forall i :: 0 <= i < |table| ==> !Returnable(site, day, shift)(table[i]);
  }

  lemma ReviewGroupMeans(r: Roster, table: seq<Record>, site: int, day: int, shift: Option<int>, today: int)
    ensures var reviewed := Each(table, ReviewRow(site, day, shift));
            if Where(table, Reviewable(site, day, shift)) == [] then
              reviewed == table && Try(r, table, ReviewGroup(site, day, shift, true, today)) == Err(NothingToReview)
            else
              Try(r, table, ReviewGroup(site, day, shift, true, today))
              == Ok(Each(reviewed, LockRow(site, shift, today - r.lockAfterDays)))
  {
    WhereEmpty(table, Reviewable(site, day, shift));
    if Where(table, Reviewable(site, day, shift)) == [] {
      ReviewNothing(table, site, day, shift);
    }
  }

  lemma ReviewNothing(table: seq<Record>, site: int, day: int, shift: Option<int>)
    requires Where(table, Reviewable(site, day, shift)) == []
    ensures Each(table, ReviewRow(site, day, shift)) == table
  {
    WhereEmpty(table, Reviewable(site, day, shift));
    assert forall i :: 0 <= i < |table| ==> !Reviewable(site, day, shift)(table[i]);
  }

  /** Entries behind a refused one do not change what the batch answers. */
  lemma {:induction false} FirstErrorStays(r: Roster, table: seq<Record>, site: int, day: int, entries: seq<Entry>,
                                           n: nat)
    requires site in r.sites && n <= |entries| && ResolveAll(r, table, site, day, entries[..n]).Err?
    ensures ResolveAll(r, table, site, day, entries) == ResolveAll(r, table, site, day, entries[..n])
  {
    if n == |entries| {
      assert entries[..n] == entries;
    } else {
      assert entries[..|entries| - 1][..n] == entries[..n];
      FirstErrorStays(r, table, site, day, entries[..|entries| - 1], n);
    }
  }
}
