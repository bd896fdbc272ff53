/**
  Placements of cleaners: opening and ending site assignments, and the all-or-nothing batch
  transfer over the assignment and trainee-programme tables.

  Rows are never deleted by these services, so a table is the sequence of its rows and a row's
  key is its position.
*/
module Workforce {
  import opened Wrappers
  import opened Staffing
  import opened Texts

  datatype CleanerStatus = Applicant | Trainee | ActiveCleaner | Inactive

  datatype Cleaner = Cleaner(idType: string, idNumber: string, status: CleanerStatus)

  datatype Assignment = Assignment(
    cleaner: nat,
    site: int,
    kind: Kind,
    status: AssignmentStatus,
    start: int,
    end: Option<int>)

  datatype ProgramStatus = InTraining | Extended | PassedTraining | FailedTraining | Dropped

  datatype Program = Program(cleaner: nat, site: int, status: ProgramStatus, start: int, expectedEnd: int)

  datatype Site = Site(mode: WorkMode, isActive: bool)

  type Sites = map<int, Site>

  datatype State = State(cleaners: seq<Cleaner>, assignments: seq<Assignment>, programs: seq<Program>)

  datatype Refusal =
    | NoCleaners | BatchTooLarge | DestinationInactive | ReasonRequired | CleanerNotFound | CleanerInactive
    | AlreadyAssigned | InvalidDates | TypeMismatch | Duplicate | AlreadyActive | StatusNotAllowed

  predicate Open(a: Assignment) {
    a.status == Active || a.status == DraftAssignment
  }

  predicate InProgress(p: Program) {
    p.status == InTraining || p.status == Extended
  }

  /** The partial unique constraint on assignments. */
  predicate Occupies(a: Assignment, cleaner: nat, site: int) {
    a.cleaner == cleaner && a.site == site && (a.status == Active || a.status == Suspended)
  }

  predicate BothOccupy(a: Assignment, b: Assignment) {
    Occupies(a, b.cleaner, b.site) && Occupies(b, b.cleaner, b.site)
  }

  predicate RowFits(sites: Sites, cleaners: seq<Cleaner>, a: Assignment) {
    && a.cleaner < |cleaners| && a.site in sites && Admits(sites[a.site].mode, a.kind)
    && (a.status == Active ==> cleaners[a.cleaner].status == ActiveCleaner)
  }

  ghost predicate Valid(sites: Sites, st: State) {
    && (forall i :: 0 <= i < |st.assignments| ==> RowFits(sites, st.cleaners, st.assignments[i]))
    && (forall i, j :: 0 <= i < j < |st.assignments| ==> !BothOccupy(st.assignments[i], st.assignments[j]))
    && (forall i, j :: 0 <= i < j < |st.programs| && InProgress(st.programs[i]) && InProgress(st.programs[j])
          ==> st.programs[i].cleaner != st.programs[j].cleaner)
    && (forall i, j :: 0 <= i < j < |st.cleaners| ==>
          st.cleaners[i].idType != st.cleaners[j].idType || st.cleaners[i].idNumber != st.cleaners[j].idNumber)
  }

  // ---- Single placements ----

  function StatusFor(cleaner: Cleaner): AssignmentStatus {
    if cleaner.status == ActiveCleaner then Active else DraftAssignment
  }

  function Assign(sites: Sites, st: State, cleaner: nat, site: int, kind: Kind, start: int, end: Option<int>)
    : Result<State, Refusal>
    requires cleaner < |st.cleaners| && site in sites
  {
    if st.cleaners[cleaner].status == Inactive then Err(CleanerInactive)
    else if end.Some? && end.value < start then Err(InvalidDates)
    else if !Admits(sites[site].mode, kind) then Err(TypeMismatch)
    else if StatusFor(st.cleaners[cleaner]) == Active
            && exists i :: 0 <= i < |st.assignments| && Occupies(st.assignments[i], cleaner, site) then Err(Duplicate)
    else Ok(st.(assignments :=
                  st.assignments + [Assignment(cleaner, site, kind, StatusFor(st.cleaners[cleaner]), start, end)]))
  }

  /** What a placement needs: a person not inactive, dates in order, a kind the site has, and no row in the way. */
  predicate Placeable(sites: Sites, st: State, cleaner: nat, site: int, kind: Kind, start: int, end: Option<int>)
    requires cleaner < |st.cleaners| && site in sites
  {
    && st.cleaners[cleaner].status in {Applicant, Trainee, ActiveCleaner}
    && (end == None || start <= end.value)
    && (match sites[site].mode
        case FullTimeOnly => kind == FullTime
        case ShiftOnly => kind == Shift
        case FullTimeAndShift => true)
    && (st.cleaners[cleaner].status == ActiveCleaner ==> NoneInTheWay(st.assignments, cleaner, site))
  }

  predicate NoneInTheWay(rows: seq<Assignment>, cleaner: nat, site: int) {
    forall i :: 0 <= i < |rows| && rows[i].cleaner == cleaner && rows[i].site == site
      ==> rows[i].status in {DraftAssignment, Ended}
  }

  /** A placement is made exactly when it can be, as one new row, ACTIVE for an active cleaner and DRAFT otherwise. */
  lemma AssignAnswers(sites: Sites, st: State, cleaner: nat, site: int, kind: Kind, start: int, end: Option<int>)
    requires cleaner < |st.cleaners| && site in sites
    ensures var r := Assign(sites, st, cleaner, site, kind, start, end);
            && (r.Ok? <==> Placeable(sites, st, cleaner, site, kind, start, end))
            && (r.Ok? ==> r.value == st.(assignments := st.assignments + [NewRow(st, cleaner, site, kind, start, end)]))
  {
    if i :| 0 <= i < |st.assignments| && Occupies(st.assignments[i], cleaner, site) {
      assert st.assignments[i].status in {Active, Suspended};
    }
    forall i | 0 <= i < |st.assignments| && st.assignments[i].cleaner == cleaner && st.assignments[i].site == site
               && st.assignments[i].status in {Active, Suspended}
      ensures Occupies(st.assignments[i], cleaner, site)
    {
    }
  }

  function NewRow(st: State, cleaner: nat, site: int, kind: Kind, start: int, end: Option<int>): Assignment
    requires cleaner < |st.cleaners|
  {
    Assignment(cleaner, site, kind, if st.cleaners[cleaner].status == ActiveCleaner then Active else DraftAssignment,
               start, end)
  }

  /** An assignment that already carries an end date keeps it. */
  function EndedRow(a: Assignment, date: int): Assignment {
    a.(status := Ended, end := if a.end.Some? then a.end else Some(date))
  }

  function EndOpen(rows: seq<Assignment>, cleaner: nat, date: int): (rows': seq<Assignment>)
    ensures |rows'| == |rows|
    ensures forall i :: 0 <= i < |rows| ==>
              rows'[i] == if rows[i].cleaner == cleaner && Open(rows[i]) then EndedRow(rows[i], date) else rows[i]
  {
    seq(|rows|, i requires 0 <= i < |rows| =>
      if rows[i].cleaner == cleaner && Open(rows[i]) then EndedRow(rows[i], date) else rows[i])
  }

  // ---- The batch ----

  /** A cleaner's open assignment that started last, the later row on a tie. */
  function Latest(rows: seq<Assignment>, cleaner: nat, n: nat): (latest: Option<nat>)
    requires n <= |rows|
    ensures latest.Some? ==> latest.value < n && rows[latest.value].cleaner == cleaner && Open(rows[latest.value])
                             && forall i :: 0 <= i < n && rows[i].cleaner == cleaner && Open(rows[i]) ==>
                                  rows[i].start < rows[latest.value].start
                                  || (rows[i].start == rows[latest.value].start && i <= latest.value)
    ensures latest.None? ==> forall i :: 0 <= i < n ==> !(rows[i].cleaner == cleaner && Open(rows[i]))
  {
    if n == 0 then None
    else
      var before := Latest(rows, cleaner, n - 1);
      if !(rows[n - 1].cleaner == cleaner && Open(rows[n - 1])) then before
      else if before.Some? && rows[before.value].start > rows[n - 1].start then before
      else Some(n - 1)
  }

  /** The kind of the new assignment: the site's if it has only one, else the person's present one. */
  function KindFor(mode: WorkMode, current: Option<Kind>): (kind: Kind)
    ensures Admits(mode, kind)
    ensures mode == FullTimeAndShift && current.Some? ==> kind == current.value
  {
    match mode
    case ShiftOnly => Shift
    case FullTimeOnly => FullTime
    case FullTimeAndShift => if current.Some? then current.value else FullTime
  }

  function CurrentKind(rows: seq<Assignment>, cleaner: nat): Option<Kind> {
    match Latest(rows, cleaner, |rows|)
    case Some(i) => Some(rows[i].kind)
    case None => None
  }

  predicate AllAt(rows: seq<Assignment>, cleaner: nat, site: int) {
    && (exists i :: 0 <= i < |rows| && rows[i].cleaner == cleaner && Open(rows[i]))
    && (forall i :: 0 <= i < |rows| && rows[i].cleaner == cleaner && Open(rows[i]) ==> rows[i].site == site)
  }

  function PlanError(st: State, cleaner: nat, site: int): Option<Refusal>
    requires cleaner < |st.cleaners|
  {
    if st.cleaners[cleaner].status == Inactive then Some(CleanerInactive)
    else if AllAt(st.assignments, cleaner, site) then Some(AlreadyAssigned)
    else None
  }

  predicate Training(programs: seq<Program>, cleaner: nat) {
    exists i :: 0 <= i < |programs| && programs[i].cleaner == cleaner && InProgress(programs[i])
  }

  /** A running programme moves along; a trainee without one is given one. */
  function MovePrograms(programs: seq<Program>, cleaner: nat, status: CleanerStatus, site: int, date: int)
    : seq<Program>
  {
    if Training(programs, cleaner) then
      seq(|programs|, i requires 0 <= i < |programs| =>
        if programs[i].cleaner == cleaner && InProgress(programs[i]) then programs[i].(site := site) else programs[i])
    else if status == Trainee then programs + [Restored(cleaner, site, date)]
    else programs
  }

  /** The person's plan carried out; `st0` is the state the plans were made in. */
  function TransferOne(sites: Sites, st0: State, st: State, cleaner: nat, site: int, date: int): Result<State, Refusal>
    requires cleaner < |st.cleaners| && site in sites
  {
    var ended := st.(assignments := EndOpen(st.assignments, cleaner, date));
    var kind := KindFor(sites[site].mode, CurrentKind(st0.assignments, cleaner));
    match Assign(sites, ended, cleaner, site, kind, date, None)
    case Err(e) => Err(e)
    case Ok(st') =>
      Ok(st'.(programs := MovePrograms(st'.programs, cleaner, st.cleaners[cleaner].status, site, date)))
  }

  function TransferEach(sites: Sites, st0: State, chosen: seq<nat>, site: int, date: int): (r: Result<State, Refusal>)
    requires (forall i :: 0 <= i < |chosen| ==> chosen[i] < |st0.cleaners|) && site in sites
    ensures r.Ok? ==> r.value.cleaners == st0.cleaners
  {
    if chosen == [] then Ok(st0)
    else match TransferEach(sites, st0, chosen[..|chosen| - 1], site, date)
      case Err(e) => Err(e)
      case Ok(st) => TransferOne(sites, st0, st, chosen[|chosen| - 1], site, date)
  }

  /** The existing cleaners among `ids`, each once, in key order. */
  function Chosen(ids: seq<nat>, n: nat): (chosen: seq<nat>)
    ensures forall i :: 0 <= i < |chosen| ==> chosen[i] < n && chosen[i] in ids
    ensures forall i, j :: 0 <= i < j < |chosen| ==> chosen[i] < chosen[j]
    ensures forall id :: id in ids && id < n ==> id in chosen
  {
    if n == 0 then []
    else Chosen(ids, n - 1) + if n - 1 in ids then [n - 1] else []
  }

  function FirstPlanError(st: State, chosen: seq<nat>, site: int): Option<Refusal>
    requires forall i :: 0 <= i < |chosen| ==> chosen[i] < |st.cleaners|
  {
    if chosen == [] then None
    else
      var before := FirstPlanError(st, chosen[..|chosen| - 1], site);
      if before.Some? then before else PlanError(st, chosen[|chosen| - 1], site)
  }

  function Ids(s: seq<nat>): set<nat> {
    set id | id in s
  }

  function Transfer(sites: Sites, st: State, ids: seq<nat>, site: int, date: int, reason: string)
    : Result<State, Refusal>
    requires site in sites
  {
    var distinct := Ids(ids);
    var chosen := Chosen(ids, |st.cleaners|);
    if distinct == {} then Err(NoCleaners)
    else if |distinct| > 100 then Err(BatchTooLarge)
    else if !sites[site].isActive then Err(DestinationInactive)
    else if Blank(reason) then Err(ReasonRequired)
    else if |chosen| != |distinct| then Err(CleanerNotFound)
    else if FirstPlanError(st, chosen, site).Some? then Err(FirstPlanError(st, chosen, site).value)
    else TransferEach(sites, st, chosen, site, date)
  }

  // ---- Who is found ----

  lemma {:induction false} DistinctSize(s: seq<nat>)
    requires forall i, j :: 0 <= i < j < |s| ==> s[i] < s[j]
    ensures |Ids(s)| == |s|
  {
    if s == [] {
      assert Ids(s) == {};
    } else {
      var init, last := s[..|s| - 1], s[|s| - 1];
      DistinctSize(init);
      assert last !in Ids(init);
      assert Ids(s) == Ids(init) + {last};
    }
  }

  /** The lengths agree exactly when every id names a cleaner. */
  lemma FoundAll(ids: seq<nat>, n: nat)
    ensures |Chosen(ids, n)| == |Ids(ids)| <==> forall id :: id in ids ==> id < n
  {
    var chosen := Chosen(ids, n);
    DistinctSize(chosen);
    assert Ids(chosen) <= Ids(ids);
    if forall id :: id in ids ==> id < n {
      assert Ids(chosen) == Ids(ids);
    }
    if |chosen| == |Ids(ids)| {
      SameSizeSubset(Ids(chosen), Ids(ids));
      forall id | id in ids ensures id < n {
        assert id in Ids(ids) && id in chosen;
      }
    }
  }

  lemma SameSizeSubset(a: set<nat>, b: set<nat>)
    requires a <= b && |a| == |b|
    ensures a == b
  {
    assert b == a + (b - a);
    assert |b| == |a| + |b - a|;
  }

  // ---- What a successful batch leaves behind ----

  /** The state a batch produces, row by row. */
  predicate Transferred(sites: Sites, st0: State, st: State, chosen: seq<nat>, site: int, date: int)
    requires (forall i :: 0 <= i < |chosen| ==> chosen[i] < |st0.cleaners|) && site in sites
  {
    && st.cleaners == st0.cleaners
    && |st.assignments| == |st0.assignments| + |chosen|
    && (forall i :: 0 <= i < |st0.assignments| ==>
          st.assignments[i] == if st0.assignments[i].cleaner in chosen && Open(st0.assignments[i])
                               then EndedRow(st0.assignments[i], date) else st0.assignments[i])
    && (forall k :: 0 <= k < |chosen| ==>
          st.assignments[|st0.assignments| + k]
          == Placement(sites, st0, chosen[k], site, date))
  }

  /** The new assignment a transfer opens for a person. */
  function Placement(sites: Sites, st0: State, cleaner: nat, site: int, date: int): Assignment
    requires cleaner < |st0.cleaners| && site in sites
  {
    Assignment(cleaner, site, KindFor(sites[site].mode, CurrentKind(st0.assignments, cleaner)),
               StatusFor(st0.cleaners[cleaner]), date, None)
  }

  predicate Distinct(chosen: seq<nat>) {
    forall i, j :: 0 <= i < j < |chosen| ==> chosen[i] != chosen[j]
  }

  /** A person who would have to be ACTIVE beside a SUSPENDED assignment at the destination. */
  predicate BlockedAt(st: State, cleaner: nat, site: int)
    requires cleaner < |st.cleaners|
  {
    st.cleaners[cleaner].status == ActiveCleaner
    && exists i :: 0 <= i < |st.assignments| && st.assignments[i].cleaner == cleaner
                   && st.assignments[i].site == site && st.assignments[i].status == Suspended
  }

  /** Ending the last person's open rows touches nothing that belongs to the others. */
  lemma EndOpenEffect(st0: State, rows: seq<Assignment>, chosen: seq<nat>, date: int)
    requires chosen != [] && Distinct(chosen)
    requires |rows| == |st0.assignments| + |chosen| - 1
    requires forall i :: 0 <= i < |st0.assignments| ==>
               rows[i] == if st0.assignments[i].cleaner in chosen[..|chosen| - 1] && Open(st0.assignments[i])
                          then EndedRow(st0.assignments[i], date) else st0.assignments[i]
    requires forall i :: |st0.assignments| <= i < |rows| ==> rows[i].cleaner == chosen[i - |st0.assignments|]
    ensures var ended := EndOpen(rows, chosen[|chosen| - 1], date);
            && (forall i :: 0 <= i < |st0.assignments| ==>
                  ended[i] == if st0.assignments[i].cleaner in chosen && Open(st0.assignments[i])
                              then EndedRow(st0.assignments[i], date) else st0.assignments[i])
            && (forall i :: |st0.assignments| <= i < |rows| ==>
                  ended[i] == rows[i] && ended[i].cleaner != chosen[|chosen| - 1])
  {
    var init, last := chosen[..|chosen| - 1], chosen[|chosen| - 1];
    assert chosen == init + [last];
    forall i | 0 <= i < |st0.assignments|
      ensures st0.assignments[i].cleaner in chosen <==>
              st0.assignments[i].cleaner in init || st0.assignments[i].cleaner == last
    {
    }
  }

  lemma TransferOneEffect(sites: Sites, st0: State, st: State, chosen: seq<nat>, site: int, date: int)
    requires site in sites && chosen != [] && Distinct(chosen)
    requires forall i :: 0 <= i < |chosen| ==>
               chosen[i] < |st0.cleaners| && st0.cleaners[chosen[i]].status != Inactive
    requires Transferred(sites, st0, st, chosen[..|chosen| - 1], site, date)
    ensures var r := TransferOne(sites, st0, st, chosen[|chosen| - 1], site, date);
            && (r.Ok? <==> !BlockedAt(st0, chosen[|chosen| - 1], site))
            && (r.Err? ==> r.error == Duplicate)
            && (r.Ok? ==> Transferred(sites, st0, r.value, chosen, site, date))
  {
    var init, last := chosen[..|chosen| - 1], chosen[|chosen| - 1];
    var ended := EndOpen(st.assignments, last, date);
    LaterRowsBelong(sites, st0, st, init, site, date);
    assert forall i :: 0 <= i < |init| ==> chosen[i] == init[i];
    EndOpenEffect(st0, st.assignments, chosen, date);
    OccupiedMeansSuspended(st0.assignments, ended, chosen, last, site, date);
    PlaceOne(sites, st0, st, last, site, date);
    if TransferOne(sites, st0, st, last, site, date).Ok? {
      PlacementsExtend(sites, st0, st, ended, TransferOne(sites, st0, st, last, site, date).value, chosen, site, date);
    }
  }

  lemma LaterRowsBelong(sites: Sites, st0: State, st: State, chosen: seq<nat>, site: int, date: int)
    requires site in sites && forall i :: 0 <= i < |chosen| ==> chosen[i] < |st0.cleaners|
    requires Transferred(sites, st0, st, chosen, site, date)
    ensures forall i :: |st0.assignments| <= i < |st.assignments| ==>
              st.assignments[i].cleaner == chosen[i - |st0.assignments|]
  {
    forall i | |st0.assignments| <= i < |st.assignments|
      ensures st.assignments[i].cleaner == chosen[i - |st0.assignments|]
    {
      assert st.assignments[|st0.assignments| + (i - |st0.assignments|)].cleaner == chosen[i - |st0.assignments|];
    }
  }

  lemma PlaceOne(sites: Sites, st0: State, st: State, cleaner: nat, site: int, date: int)
    requires cleaner < |st0.cleaners| && site in sites && st.cleaners == st0.cleaners
    requires st0.cleaners[cleaner].status != Inactive
    ensures var ended := EndOpen(st.assignments, cleaner, date);
            var r := TransferOne(sites, st0, st, cleaner, site, date);
            && (r.Err? <==> StatusFor(st0.cleaners[cleaner]) == Active
                            && exists i :: 0 <= i < |ended| && Occupies(ended[i], cleaner, site))
            && (r.Err? ==> r.error == Duplicate)
            && (r.Ok? ==> r.value.cleaners == st0.cleaners
                          && r.value.assignments == ended + [Placement(sites, st0, cleaner, site, date)])
  {
  }

  lemma PlacementsExtend(sites: Sites, st0: State, st: State, ended: seq<Assignment>, st': State, chosen: seq<nat>,
                         site: int, date: int)
    requires site in sites && chosen != [] && forall i :: 0 <= i < |chosen| ==> chosen[i] < |st0.cleaners|
    requires Transferred(sites, st0, st, chosen[..|chosen| - 1], site, date)
    requires |ended| == |st.assignments| && st'.cleaners == st0.cleaners
    requires forall i :: 0 <= i < |st0.assignments| ==>
               ended[i] == if st0.assignments[i].cleaner in chosen && Open(st0.assignments[i])
                           then EndedRow(st0.assignments[i], date) else st0.assignments[i]
    requires forall i :: |st0.assignments| <= i < |ended| ==> ended[i] == st.assignments[i]
    requires st'.assignments == ended + [Placement(sites, st0, chosen[|chosen| - 1], site, date)]
    ensures Transferred(sites, st0, st', chosen, site, date)
  {
    var n, init := |st0.assignments|, chosen[..|chosen| - 1];
    forall k | 0 <= k < |chosen|
      ensures st'.assignments[n + k] == Placement(sites, st0, chosen[k], site, date)
    {
      if k < |init| {
        assert st.assignments[n + k] == Placement(sites, st0, init[k], site, date);
      }
    }
  }

  /** Once the open rows have ended, only a suspended one can still stand in the way. */
  lemma OccupiedMeansSuspended(before: seq<Assignment>, ended: seq<Assignment>, chosen: seq<nat>, cleaner: nat,
                               site: int, date: int)
    requires |before| <= |ended| && cleaner in chosen
    requires forall i :: 0 <= i < |before| ==>
               ended[i] == if before[i].cleaner in chosen && Open(before[i])
                           then EndedRow(before[i], date) else before[i]
    requires forall i :: |before| <= i < |ended| ==> ended[i].cleaner != cleaner
    ensures (exists i :: 0 <= i < |ended| && Occupies(ended[i], cleaner, site))
       <==> (exists i :: 0 <= i < |before| && before[i].cleaner == cleaner && before[i].site == site
                         && before[i].status == Suspended)
  {
    if i :| 0 <= i < |before| && before[i].cleaner == cleaner && before[i].site == site
            && before[i].status == Suspended {
      assert Occupies(ended[i], cleaner, site);
    }
  }

  lemma {:induction false} TransferEachEffect(sites: Sites, st0: State, chosen: seq<nat>, site: int, date: int)
    requires site in sites && Distinct(chosen)
    requires forall i :: 0 <= i < |chosen| ==>
               chosen[i] < |st0.cleaners| && st0.cleaners[chosen[i]].status != Inactive
    ensures var r := TransferEach(sites, st0, chosen, site, date);
            && (r.Ok? <==> forall i :: 0 <= i < |chosen| ==> !BlockedAt(st0, chosen[i], site))
            && (r.Err? ==> r.error == Duplicate)
            && (r.Ok? ==> Transferred(sites, st0, r.value, chosen, site, date))
  {
    if chosen != [] {
      var init := chosen[..|chosen| - 1];
      TransferEachEffect(sites, st0, init, site, date);
      var r := TransferEach(sites, st0, init, site, date);
      if r.Ok? {
        TransferOneEffect(sites, st0, r.value, chosen, site, date);
      }
      NoneBlockedSplits(st0, chosen, site);
    }
  }

  lemma NoneBlockedSplits(st: State, chosen: seq<nat>, site: int)
    requires chosen != [] && forall i :: 0 <= i < |chosen| ==> chosen[i] < |st.cleaners|
    ensures var init := chosen[..|chosen| - 1];
            (forall i :: 0 <= i < |chosen| ==> !BlockedAt(st, chosen[i], site))
            <==> (forall i :: 0 <= i < |init| ==> !BlockedAt(st, init[i], site))
                 && !BlockedAt(st, chosen[|chosen| - 1], site)
  {
    var init := chosen[..|chosen| - 1];
    assert forall i :: 0 <= i < |init| ==> chosen[i] == init[i];
  }

  lemma {:induction false} NoPlanError(st: State, chosen: seq<nat>, site: int)
    requires forall i :: 0 <= i < |chosen| ==> chosen[i] < |st.cleaners|
    ensures FirstPlanError(st, chosen, site).None?
       <==> forall i :: 0 <= i < |chosen| ==> PlanError(st, chosen[i], site).None?
  {
    if chosen != [] {
      NoPlanError(st, chosen[..|chosen| - 1], site);
    }
  }

  /** A known person who is not inactive, has no open row or one elsewhere, and no suspended one in the way. */
  predicate CanMove(st: State, id: nat, site: int) {
    && id < |st.cleaners| && st.cleaners[id].status in {Applicant, Trainee, ActiveCleaner}
    && (OpenElsewhere(st.assignments, id, site) || HasNoOpen(st.assignments, id))
    && !BlockedAt(st, id, site)
  }

  predicate HasNoOpen(rows: seq<Assignment>, id: nat) {
    forall i :: 0 <= i < |rows| && rows[i].cleaner == id ==> rows[i].status in {Suspended, Ended}
  }

  predicate OpenElsewhere(rows: seq<Assignment>, id: nat, site: int) {
    exists i :: 0 <= i < |rows| && rows[i].cleaner == id && rows[i].status in {Active, DraftAssignment}
                && rows[i].site != site
  }

  lemma NotAllThere(rows: seq<Assignment>, id: nat, site: int)
    ensures !AllAt(rows, id, site) <==> OpenElsewhere(rows, id, site) || HasNoOpen(rows, id)
  {
  }

  lemma CanMoveMeans(st: State, id: nat, site: int)
    ensures CanMove(st, id, site) <==> PlanAllowed(st, id, site) && !BlockedAt(st, id, site)
  {
    NotAllThere(st.assignments, id, site);
  }

  /** What an accepted batch's guards have established. */
  lemma PlansAccepted(sites: Sites, st: State, ids: seq<nat>, site: int)
    requires site in sites && |Chosen(ids, |st.cleaners|)| == |Ids(ids)|
    ensures FirstPlanError(st, Chosen(ids, |st.cleaners|), site).None?
       <==> forall id :: id in ids ==> PlanAllowed(st, id, site)
  {
    var chosen := Chosen(ids, |st.cleaners|);
    NoPlanError(st, chosen, site);
    FoundAll(ids, |st.cleaners|);
    if forall i :: 0 <= i < |chosen| ==> PlanError(st, chosen[i], site).None? {
      forall id | id in ids ensures PlanAllowed(st, id, site) {
        assert id in chosen;
      }
    }
    if forall id :: id in ids ==> PlanAllowed(st, id, site) {
      forall i | 0 <= i < |chosen| ensures PlanError(st, chosen[i], site).None? {
        assert PlanAllowed(st, chosen[i], site);
      }
    }
  }

  predicate PlanAllowed(st: State, id: nat, site: int) {
    id < |st.cleaners| && PlanError(st, id, site).None?
  }

  /**
    A batch succeeds exactly when its own form is right and every person named can move: known, not inactive, not
    already placed only there, and not an active cleaner with a suspended assignment there.  One who cannot stops all.
  */
  lemma TransferSucceedsWhenAllCanMove(sites: Sites, st: State, ids: seq<nat>, site: int, date: int, reason: string)
    requires site in sites
    ensures Transfer(sites, st, ids, site, date, reason).Ok?
       <==> && ids != [] && |set id | id in ids| <= 100 && sites[site].isActive && HasText(reason)
            && forall id :: id in ids ==> CanMove(st, id, site)
  {
    BlankMeansNoText(reason);
    assert Ids(ids) == set id | id in ids;
    var chosen := Chosen(ids, |st.cleaners|);
    if ids != [] {
      assert ids[0] in Ids(ids);
    } else {
      assert Ids(ids) == {};
    }
    if |chosen| != |Ids(ids)| {
      FoundAll(ids, |st.cleaners|);
    } else if FirstPlanError(st, chosen, site).Some? {
      PlansAccepted(sites, st, ids, site);
      forall id | id in ids && CanMove(st, id, site) ensures PlanAllowed(st, id, site) {
        CanMoveMeans(st, id, site);
      }
    } else {
      EachCanMove(sites, st, ids, site, date);
    }
  }

  lemma EachCanMove(sites: Sites, st: State, ids: seq<nat>, site: int, date: int)
    requires site in sites && |Chosen(ids, |st.cleaners|)| == |Ids(ids)|
    requires FirstPlanError(st, Chosen(ids, |st.cleaners|), site).None?
    ensures TransferEach(sites, st, Chosen(ids, |st.cleaners|), site, date).Ok?
       <==> forall id :: id in ids ==> CanMove(st, id, site)
  {
    var chosen := Chosen(ids, |st.cleaners|);
    PlansAccepted(sites, st, ids, site);
    assert forall i :: 0 <= i < |chosen| ==> PlanAllowed(st, chosen[i], site);
    TransferEachEffect(sites, st, chosen, site, date);
    UnblockedCanMove(st, ids, chosen, site);
  }

  lemma UnblockedCanMove(st: State, ids: seq<nat>, chosen: seq<nat>, site: int)
    requires forall id :: id in ids ==> PlanAllowed(st, id, site) && id in chosen
    requires forall i :: 0 <= i < |chosen| ==> chosen[i] < |st.cleaners| && chosen[i] in ids
    ensures (forall i :: 0 <= i < |chosen| ==> !BlockedAt(st, chosen[i], site))
       <==> (forall id :: id in ids ==> CanMove(st, id, site))
  {
    forall id | id in ids ensures CanMove(st, id, site) <==> !BlockedAt(st, id, site) {
      CanMoveMeans(st, id, site);
    }
    if forall i :: 0 <= i < |chosen| ==> !BlockedAt(st, chosen[i], site) {
      forall id | id in ids ensures CanMove(st, id, site) {
        var i :| 0 <= i < |chosen| && chosen[i] == id;
      }
    }
  }

  lemma GuardsPassed(sites: Sites, st: State, ids: seq<nat>, site: int, date: int, reason: string)
    requires site in sites && Transfer(sites, st, ids, site, date, reason).Ok?
    ensures var chosen := Chosen(ids, |st.cleaners|);
            && |chosen| == |Ids(ids)| && FirstPlanError(st, chosen, site).None?
            && Transfer(sites, st, ids, site, date, reason) == TransferEach(sites, st, chosen, site, date)
  {
  }

  /** The closed form of a successful batch. */
  lemma TransferEffect(sites: Sites, st: State, ids: seq<nat>, site: int, date: int, reason: string)
    requires site in sites && Transfer(sites, st, ids, site, date, reason).Ok?
    ensures var chosen := Chosen(ids, |st.cleaners|);
            var r := Transfer(sites, st, ids, site, date, reason);
            && r == TransferEach(sites, st, chosen, site, date)
            && |chosen| == |Ids(ids)|
            && Transferred(sites, st, r.value, chosen, site, date)
    ensures forall id :: id in ids ==> CanMove(st, id, site)
  {
    var chosen := Chosen(ids, |st.cleaners|);
    GuardsPassed(sites, st, ids, site, date, reason);
    EachCanMove(sites, st, ids, site, date);
    assert forall i :: 0 <= i < |chosen| ==> CanMove(st, chosen[i], site);
    TransferEachEffect(sites, st, chosen, site, date);
  }

  /** Row `i` of the result: an old row, open only if its person was not chosen, or the placement of one chosen. */
  lemma RowAfter(sites: Sites, st: State, st': State, chosen: seq<nat>, site: int, date: int, i: nat)
    requires site in sites && (forall k :: 0 <= k < |chosen| ==> chosen[k] < |st.cleaners|)
    requires Transferred(sites, st, st', chosen, site, date) && i < |st'.assignments|
    ensures i < |st.assignments| ==> !(st'.assignments[i].cleaner in chosen && Open(st'.assignments[i]))
    ensures i >= |st.assignments| ==>
              st'.assignments[i] == Placement(sites, st, chosen[i - |st.assignments|], site, date)
  {
    if i >= |st.assignments| {
      var k := i - |st.assignments|;
      assert st'.assignments[|st.assignments| + k] == Placement(sites, st, chosen[k], site, date);
    }
  }

  lemma PlacementOf(sites: Sites, st: State, st': State, ids: seq<nat>, site: int, date: int, id: nat)
    returns (n: nat)
    requires site in sites && Transferred(sites, st, st', Chosen(ids, |st.cleaners|), site, date)
    requires id in ids && id < |st.cleaners|
    ensures |st.assignments| <= n < |st'.assignments|
    ensures st'.assignments[n] == Placement(sites, st, id, site, date)
    ensures forall i :: 0 <= i < |st'.assignments| && st'.assignments[i].cleaner == id && Open(st'.assignments[i])
              ==> i == n
  {
    var chosen := Chosen(ids, |st.cleaners|);
    assert id in chosen;
    var k :| 0 <= k < |chosen| && chosen[k] == id;
    n := |st.assignments| + k;
    RowAfter(sites, st, st', chosen, site, date, n);
    forall i | 0 <= i < |st'.assignments| && st'.assignments[i].cleaner == id && Open(st'.assignments[i])
      ensures i == n
    {
      RowAfter(sites, st, st', chosen, site, date, i);
    }
  }

  /** Row `i` is the person's open one that started last, the later row on a tie. */
  predicate IsPresent(rows: seq<Assignment>, id: nat, i: nat) {
    && i < |rows| && rows[i].cleaner == id && rows[i].status in {Active, DraftAssignment}
    && forall j :: 0 <= j < |rows| && rows[j].cleaner == id && rows[j].status in {Active, DraftAssignment} ==>
         rows[j].start < rows[i].start || (rows[j].start == rows[i].start && j <= i)
  }

  /** The site's own kind if it has one, else that of the present assignment, and FULL_TIME without one. */
  ghost predicate RightKind(mode: WorkMode, rows: seq<Assignment>, id: nat, kind: Kind) {
    match mode
    case FullTimeOnly => kind == FullTime
    case ShiftOnly => kind == Shift
    case FullTimeAndShift =>
      && (forall i: nat :: IsPresent(rows, id, i) ==> kind == rows[i].kind)
      && (HasNoOpen(rows, id) ==> kind == FullTime)
  }

  lemma KindIsRight(mode: WorkMode, rows: seq<Assignment>, id: nat)
    ensures RightKind(mode, rows, id, KindFor(mode, CurrentKind(rows, id)))
  {
    var latest := Latest(rows, id, |rows|);
    forall i: nat | IsPresent(rows, id, i) ensures latest == Some(i) {
      assert Open(rows[i]);
    }
  }

  lemma KindsAreRight(mode: WorkMode, rows: seq<Assignment>, chosen: seq<nat>, kinds: seq<Kind>)
    requires |kinds| == |chosen|
    requires forall k :: 0 <= k < |chosen| ==> kinds[k] == KindFor(mode, CurrentKind(rows, chosen[k]))
    ensures forall k :: 0 <= k < |chosen| ==> RightKind(mode, rows, chosen[k], kinds[k])
  {
    forall k | 0 <= k < |chosen| ensures RightKind(mode, rows, chosen[k], kinds[k]) {
      KindIsRight(mode, rows, chosen[k]);
    }
  }

  /** Row `n` is the person's one open assignment: new, of the right kind, ACTIVE exactly for an active cleaner. */
  ghost predicate PlacedRight(sites: Sites, before: State, after: State, id: nat, site: int, date: int, n: nat)
    requires site in sites && id < |before.cleaners|
  {
    var rows := after.assignments;
    && |before.assignments| <= n < |rows|
    && rows[n] == Assignment(id, site, rows[n].kind,
                             if before.cleaners[id].status == ActiveCleaner then Active else DraftAssignment,
                             date, None)
    && RightKind(sites[site].mode, before.assignments, id, rows[n].kind)
    && forall i :: 0 <= i < |rows| && rows[i].cleaner == id && rows[i].status in {Active, DraftAssignment} ==> i == n
  }

  /**
    After a successful batch each person named has exactly one open assignment: a new one at the destination, of the
    right kind, from the date on, ACTIVE for an active cleaner and DRAFT otherwise.
  */
  lemma OneOpenPlacementEach(sites: Sites, st: State, ids: seq<nat>, site: int, date: int, reason: string, id: nat)
    returns (n: nat)
    requires site in sites && Transfer(sites, st, ids, site, date, reason).Ok? && id in ids
    ensures id < |st.cleaners|
    ensures PlacedRight(sites, st, Transfer(sites, st, ids, site, date, reason).value, id, site, date, n)
  {
    KindIsRight(sites[site].mode, st.assignments, id);
    TransferEffect(sites, st, ids, site, date, reason);
    assert CanMove(st, id, site);
    n := PlacementOf(sites, st, Transfer(sites, st, ids, site, date, reason).value, ids, site, date, id);
  }

  /**
    A successful batch adds one row per distinct person; of the rows there were it ends the open ones of the people
    named and leaves every other row as it was.
  */
  lemma TransferKeepsHistory(sites: Sites, st: State, ids: seq<nat>, site: int, date: int, reason: string, i: nat)
    requires site in sites && Transfer(sites, st, ids, site, date, reason).Ok?
    requires i < |Transfer(sites, st, ids, site, date, reason).value.assignments|
    ensures var rows := Transfer(sites, st, ids, site, date, reason).value.assignments;
            && |rows| == |st.assignments| + |Ids(ids)|
            && (i < |st.assignments| ==>
                  var a := st.assignments[i];
                  rows[i] == if a.cleaner in ids && a.status in {Active, DraftAssignment}
                             then a.(status := Ended, end := Some(if a.end.Some? then a.end.value else date)) else a)
            && (i >= |st.assignments| ==> rows[i].cleaner in ids)
  {
    TransferEffect(sites, st, ids, site, date, reason);
    var st' := Transfer(sites, st, ids, site, date, reason).value;
    assert forall id :: id in ids ==> CanMove(st, id, site);
    HistoryOf(sites, st, st', ids, site, date, i);
  }

  lemma HistoryOf(sites: Sites, st: State, st': State, ids: seq<nat>, site: int, date: int, i: nat)
    requires site in sites && Transferred(sites, st, st', Chosen(ids, |st.cleaners|), site, date)
    requires forall id :: id in ids ==> id < |st.cleaners|
    requires i < |st'.assignments|
    ensures i < |st.assignments| ==>
              st'.assignments[i] == if st.assignments[i].cleaner in ids && Open(st.assignments[i])
                                    then EndedRow(st.assignments[i], date) else st.assignments[i]
    ensures i >= |st.assignments| ==> st'.assignments[i].cleaner in ids
  {
    var chosen := Chosen(ids, |st.cleaners|);
    assert forall id :: id in ids <==> id in chosen;
    if i >= |st.assignments| {
      RowAfter(sites, st, st', chosen, site, date, i);
    }
  }

  /**
    Ending is not validated: of the rows whose dates were in order, a successful transfer leaves with an end before
    the start exactly the open rows of the people named that had no end and were to start after it takes effect.
  */
  lemma EndedBeforeItStarts(sites: Sites, st: State, ids: seq<nat>, site: int, date: int, reason: string, i: nat)
    requires site in sites && Transfer(sites, st, ids, site, date, reason).Ok?
    requires i < |st.assignments|
    requires var a := st.assignments[i]; a.end.Some? ==> a.start <= a.end.value
    ensures i < |Transfer(sites, st, ids, site, date, reason).value.assignments|
    ensures var a, row := st.assignments[i], Transfer(sites, st, ids, site, date, reason).value.assignments[i];
            row.end.Some? && row.end.value < row.start
            <==> a.cleaner in ids && a.status in {Active, DraftAssignment} && a.end == None && date < a.start
  {
    TransferEffect(sites, st, ids, site, date, reason);
    TransferKeepsHistory(sites, st, ids, site, date, reason, i);
  }

  // ---- Trainee programmes ----

  predicate OneProgramEach(programs: seq<Program>) {
    forall i, j :: 0 <= i < j < |programs| && InProgress(programs[i]) && InProgress(programs[j])
      ==> programs[i].cleaner != programs[j].cleaner
  }

  predicate ProgramsAt(programs: seq<Program>, cleaner: nat, site: int) {
    forall i :: 0 <= i < |programs| && programs[i].cleaner == cleaner && InProgress(programs[i])
      ==> programs[i].site == site
  }

  lemma MoveProgramsEffect(programs: seq<Program>, cleaner: nat, status: CleanerStatus, site: int, date: int)
    requires OneProgramEach(programs)
    ensures var moved := MovePrograms(programs, cleaner, status, site, date);
            && OneProgramEach(moved)
            && ProgramsAt(moved, cleaner, site)
            && (Training(moved, cleaner) <==> Training(programs, cleaner) || status == Trainee)
            && (forall other: nat, s: int :: other != cleaner ==>
                  (ProgramsAt(moved, other, s) <==> ProgramsAt(programs, other, s)))
            && (forall other: nat :: other != cleaner ==> (Training(moved, other) <==> Training(programs, other)))
  {
    var moved := MovePrograms(programs, cleaner, status, site, date);
    assert |moved| >= |programs|;
    assert forall i :: 0 <= i < |programs| ==>
             moved[i].cleaner == programs[i].cleaner && moved[i].status == programs[i].status
             && (programs[i].cleaner != cleaner ==> moved[i] == programs[i]);
    if i :| 0 <= i < |programs| && programs[i].cleaner == cleaner && InProgress(programs[i]) {
      assert moved[i].cleaner == cleaner && InProgress(moved[i]);
    } else if status == Trainee {
      assert moved[|programs|].cleaner == cleaner && InProgress(moved[|programs|]);
    }
    forall other: nat, s: int | other != cleaner
      ensures ProgramsAt(moved, other, s) <==> ProgramsAt(programs, other, s)
    {
      OtherProgramsStay(programs, moved, cleaner, other, s);
    }
    forall other: nat | other != cleaner
      ensures Training(moved, other) <==> Training(programs, other)
    {
      OtherProgramsStay(programs, moved, cleaner, other, site);
    }
  }

  lemma OtherProgramsStay(programs: seq<Program>, moved: seq<Program>, cleaner: nat, other: nat, site: int)
    requires other != cleaner && |programs| <= |moved|
    requires forall i :: 0 <= i < |programs| ==>
               moved[i].cleaner == programs[i].cleaner && (programs[i].cleaner != cleaner ==> moved[i] == programs[i])
    requires forall i :: |programs| <= i < |moved| ==> moved[i].cleaner == cleaner
    ensures ProgramsAt(moved, other, site) <==> ProgramsAt(programs, other, site)
    ensures Training(moved, other) <==> Training(programs, other)
  {
    if ProgramsAt(moved, other, site) {
      forall i | 0 <= i < |programs| && programs[i].cleaner == other && InProgress(programs[i])
        ensures programs[i].site == site
      {
        assert moved[i] == programs[i];
      }
    }
    if i :| 0 <= i < |programs| && programs[i].cleaner == other && InProgress(programs[i]) {
      assert moved[i] == programs[i];
    }
  }

  /** What moving a list of people does to the programmes. */
  ghost predicate ProgramsMoved(before: State, programs: seq<Program>, chosen: seq<nat>, site: int)
    requires forall k :: 0 <= k < |chosen| ==> chosen[k] < |before.cleaners|
  {
    && OneProgramEach(programs)
    && (forall id: nat :: id in chosen ==>
          ProgramsAt(programs, id, site)
          && (Training(programs, id) <==> Training(before.programs, id) || before.cleaners[id].status == Trainee))
    && (forall id: nat, s: int :: id !in chosen ==>
          (ProgramsAt(programs, id, s) <==> ProgramsAt(before.programs, id, s)))
    && (forall id: nat :: id !in chosen ==> (Training(programs, id) <==> Training(before.programs, id)))
  }

  lemma OneMoreMoved(before: State, programs: seq<Program>, init: seq<nat>, last: nat, site: int, date: int)
    requires (forall k :: 0 <= k < |init| ==> init[k] < |before.cleaners|) && last < |before.cleaners| && last !in init
    requires ProgramsMoved(before, programs, init, site)
    ensures ProgramsMoved(before, MovePrograms(programs, last, before.cleaners[last].status, site, date),
                          init + [last], site)
  {
    var moved := MovePrograms(programs, last, before.cleaners[last].status, site, date);
    MoveProgramsEffect(programs, last, before.cleaners[last].status, site, date);
    forall id: nat | id in init + [last]
      ensures ProgramsAt(moved, id, site)
      ensures Training(moved, id) <==> Training(before.programs, id) || before.cleaners[id].status == Trainee
    {
      if id != last {
        assert id in init && ProgramsAt(programs, id, site);
      } else {
        assert Training(programs, last) <==> Training(before.programs, last);
      }
    }
  }

  lemma {:induction false} TransferEachPrograms(sites: Sites, st0: State, chosen: seq<nat>, site: int, date: int)
    requires site in sites && Distinct(chosen) && OneProgramEach(st0.programs)
    requires forall i :: 0 <= i < |chosen| ==> chosen[i] < |st0.cleaners|
    requires TransferEach(sites, st0, chosen, site, date).Ok?
    ensures ProgramsMoved(st0, TransferEach(sites, st0, chosen, site, date).value.programs, chosen, site)
  {
    if chosen != [] {
      var init, last := chosen[..|chosen| - 1], chosen[|chosen| - 1];
      assert chosen == init + [last] && last !in init;
      TransferEachPrograms(sites, st0, init, site, date);
      OneMoreMoved(st0, TransferEach(sites, st0, init, site, date).value.programs, init, last, site, date);
    }
  }

  /** After a successful batch the running programmes of the people named are there, and each trainee has one. */
  lemma ProgrammesFollow(sites: Sites, st: State, ids: seq<nat>, site: int, date: int, reason: string, id: nat)
    requires site in sites && Valid(sites, st) && Transfer(sites, st, ids, site, date, reason).Ok? && id in ids
    ensures id < |st.cleaners|
    ensures var programs := Transfer(sites, st, ids, site, date, reason).value.programs;
            && ProgramsAt(programs, id, site)
            && (Training(programs, id) <==> Training(st.programs, id) || st.cleaners[id].status == Trainee)
  {
    TransferEffect(sites, st, ids, site, date, reason);
    assert CanMove(st, id, site);
    TransferEachPrograms(sites, st, Chosen(ids, |st.cleaners|), site, date);
  }

  /** The programme a transfer opens for a trainee without one. */
  function Restored(cleaner: nat, site: int, date: int): Program {
    Program(cleaner, site, InTraining, date, date + 90)
  }

  predicate ProgramRows(before: State, programs: seq<Program>, chosen: seq<nat>, site: int, date: int)
    requires forall k :: 0 <= k < |chosen| ==> chosen[k] < |before.cleaners|
  {
    && |before.programs| <= |programs|
    && (forall i :: 0 <= i < |before.programs| ==>
          var p := before.programs[i];
          programs[i] == if p.cleaner in chosen && InProgress(p) then p.(site := site) else p)
    && (forall i :: |before.programs| <= i < |programs| ==>
          && programs[i] == Restored(programs[i].cleaner, site, date)
          && programs[i].cleaner in chosen && programs[i].cleaner < |before.cleaners|
          && before.cleaners[programs[i].cleaner].status == Trainee
          && !Training(before.programs, programs[i].cleaner))
  }

  lemma MoveProgramsRows(before: State, init: seq<nat>, last: nat, programs: seq<Program>, site: int, date: int)
    requires (forall k :: 0 <= k < |init| ==> init[k] < |before.cleaners|) && last < |before.cleaners| && last !in init
    requires ProgramRows(before, programs, init, site, date)
    requires Training(programs, last) <==> Training(before.programs, last)
    ensures ProgramRows(before, MovePrograms(programs, last, before.cleaners[last].status, site, date),
                        init + [last], site, date)
  {
    var moved := MovePrograms(programs, last, before.cleaners[last].status, site, date);
    forall i | 0 <= i < |before.programs|
      ensures var p := before.programs[i];
              moved[i] == if p.cleaner in init + [last] && InProgress(p) then p.(site := site) else p
    {
      if before.programs[i].cleaner == last && InProgress(before.programs[i]) {
        assert Training(before.programs, last);
      }
    }
    forall i | |programs| <= i < |moved| ensures moved[i] == Restored(last, site, date) {
    }
    forall i | |before.programs| <= i < |programs| ensures moved[i] == programs[i] {
    }
  }

  lemma {:induction false} TransferEachRows(sites: Sites, st0: State, chosen: seq<nat>, site: int, date: int)
    requires site in sites && Distinct(chosen) && OneProgramEach(st0.programs)
    requires forall i :: 0 <= i < |chosen| ==> chosen[i] < |st0.cleaners|
    requires TransferEach(sites, st0, chosen, site, date).Ok?
    ensures ProgramRows(st0, TransferEach(sites, st0, chosen, site, date).value.programs, chosen, site, date)
  {
    if chosen != [] {
      var init, last := chosen[..|chosen| - 1], chosen[|chosen| - 1];
      assert chosen == init + [last] && last !in init;
      TransferEachRows(sites, st0, init, site, date);
      TransferEachPrograms(sites, st0, init, site, date);
      MoveProgramsRows(st0, init, last, TransferEach(sites, st0, init, site, date).value.programs, site, date);
    }
  }

  /**
    Programme by programme: a successful batch moves the running ones of the people named and leaves every other row
    as it was; each row it adds is a new programme there for a trainee named who had none.
  */
  lemma TransferKeepsProgrammes(sites: Sites, st: State, ids: seq<nat>, site: int, date: int, reason: string, i: nat)
    requires site in sites && Valid(sites, st) && Transfer(sites, st, ids, site, date, reason).Ok?
    requires i < |Transfer(sites, st, ids, site, date, reason).value.programs|
    ensures var row := Transfer(sites, st, ids, site, date, reason).value.programs[i];
            if i < |st.programs| then
              row == if st.programs[i].cleaner in ids && st.programs[i].status in {InTraining, Extended}
                     then st.programs[i].(site := site) else st.programs[i]
            else
              && row == Program(row.cleaner, site, InTraining, date, date + 90)
              && row.cleaner in ids && row.cleaner < |st.cleaners| && st.cleaners[row.cleaner].status == Trainee
              && !(exists j :: 0 <= j < |st.programs| && st.programs[j].cleaner == row.cleaner
                               && st.programs[j].status in {InTraining, Extended})
    ensures |st.programs| <= |Transfer(sites, st, ids, site, date, reason).value.programs|
  {
    TransferEffect(sites, st, ids, site, date, reason);
    var chosen := Chosen(ids, |st.cleaners|);
    TransferEachRows(sites, st, chosen, site, date);
    if i < |st.programs| && st.programs[i].cleaner in ids {
      assert CanMove(st, st.programs[i].cleaner, site);
      assert st.programs[i].cleaner in chosen;
    }
  }

  /** A batch, successful or not, keeps the table rules. */
  lemma TransferKeepsValid(sites: Sites, st: State, ids: seq<nat>, site: int, date: int, reason: string)
    requires site in sites && Valid(sites, st)
    ensures Transfer(sites, st, ids, site, date, reason).Ok? ==>
              Valid(sites, Transfer(sites, st, ids, site, date, reason).value)
  {
    var r := Transfer(sites, st, ids, site, date, reason);
    if r.Ok? {
      TransferEffect(sites, st, ids, site, date, reason);
      var chosen := Chosen(ids, |st.cleaners|);
      TransferEachPrograms(sites, st, chosen, site, date);
      PlacementsValid(sites, st, r.value, chosen, site, date);
    }
  }

  lemma PlacementsValid(sites: Sites, st: State, st': State, chosen: seq<nat>, site: int, date: int)
    requires site in sites && Valid(sites, st) && Distinct(chosen) && OneProgramEach(st'.programs)
    requires forall i :: 0 <= i < |chosen| ==> chosen[i] < |st.cleaners| && CanMove(st, chosen[i], site)
    requires Transferred(sites, st, st', chosen, site, date)
    ensures Valid(sites, st')
  {
    var rows := st'.assignments;
    forall i | 0 <= i < |rows| ensures RowFits(sites, st.cleaners, rows[i]) {
      TransferredRowFits(sites, st, st', chosen, site, date, i);
    }
    forall i, j | 0 <= i < j < |rows| ensures !BothOccupy(rows[i], rows[j]) {
      if j < |st.assignments| {
        EndedRowsApart(st.assignments[i], st.assignments[j], rows[i], rows[j], date);
      } else {
        NewRowIsApart(sites, st, st', chosen, site, date, i, j);
      }
    }
  }

  lemma TransferredRowFits(sites: Sites, st: State, st': State, chosen: seq<nat>, site: int, date: int, i: nat)
    requires site in sites && forall k :: 0 <= k < |chosen| ==> chosen[k] < |st.cleaners|
    requires forall k :: 0 <= k < |st.assignments| ==> RowFits(sites, st.cleaners, st.assignments[k])
    requires Transferred(sites, st, st', chosen, site, date) && i < |st'.assignments|
    ensures RowFits(sites, st.cleaners, st'.assignments[i])
  {
    if i < |st.assignments| {
      assert RowFits(sites, st.cleaners, st.assignments[i]);
    } else {
      var k := i - |st.assignments|;
      assert st'.assignments[|st.assignments| + k] == Placement(sites, st, chosen[k], site, date);
    }
  }

  /** Ending rows makes room, never a conflict. */
  lemma EndedRowsApart(a: Assignment, b: Assignment, a': Assignment, b': Assignment, date: int)
    requires !BothOccupy(a, b)
    requires a' == a || a' == EndedRow(a, date)
    requires b' == b || b' == EndedRow(b, date)
    ensures !BothOccupy(a', b')
  {
  }

  lemma NewRowIsApart(sites: Sites, st: State, st': State, chosen: seq<nat>, site: int, date: int, i: nat, j: nat)
    requires site in sites && Distinct(chosen)
    requires forall k :: 0 <= k < |chosen| ==> chosen[k] < |st.cleaners| && CanMove(st, chosen[k], site)
    requires Transferred(sites, st, st', chosen, site, date)
    requires i < j < |st'.assignments| && |st.assignments| <= j
    ensures !BothOccupy(st'.assignments[i], st'.assignments[j])
  {
    var n := |st.assignments|;
    assert st'.assignments[n + (j - n)] == Placement(sites, st, chosen[j - n], site, date);
    if i < n {
      PlacementIsFree(sites, st, chosen, site, date, i, j - n, st'.assignments[i]);
    } else {
      assert st'.assignments[n + (i - n)] == Placement(sites, st, chosen[i - n], site, date);
    }
  }

  /** A new ACTIVE row meets no earlier row of its cleaner and site that still occupies. */
  lemma PlacementIsFree(sites: Sites, st: State, chosen: seq<nat>, site: int, date: int, i: nat, k: nat,
                        row: Assignment)
    requires site in sites && i < |st.assignments| && k < |chosen|
    requires chosen[k] < |st.cleaners| && CanMove(st, chosen[k], site)
    requires row == if st.assignments[i].cleaner in chosen && Open(st.assignments[i])
                    then EndedRow(st.assignments[i], date) else st.assignments[i]
    ensures var new' := Placement(sites, st, chosen[k], site, date);
            !BothOccupy(row, new')
  {
    if st.assignments[i].cleaner == chosen[k] {
      assert chosen[k] in chosen;
    }
  }

  // ---- The service ----

  class Registry {
    const sites: Sites
    var cleaners: seq<Cleaner>
    var assignments: seq<Assignment>
    var programs: seq<Program>

    ghost function Tables(): State
      reads this
    {
      State(cleaners, assignments, programs)
    }

    constructor (sites: Sites)
      ensures this.sites == sites && Tables() == State([], [], []) && Valid(sites, Tables())
    {
      this.sites := sites;
      cleaners, assignments, programs := [], [], [];
    }

    method AssignToSite(cleaner: nat, site: int, kind: Kind, start: int, end: Option<int>)
      returns (r: Result<nat, Refusal>)
      requires cleaner < |cleaners| && site in sites
      modifies this`assignments
      ensures var r' := Assign(sites, old(Tables()), cleaner, site, kind, start, end);
              && (r'.Ok? ==> r == Ok(|old(assignments)|) && Tables() == r'.value)
              && (r'.Err? ==> r == Err(r'.error) && assignments == old(assignments))
      ensures r.Ok? <==> Placeable(sites, old(Tables()), cleaner, site, kind, start, end)
      ensures r.Ok? ==> assignments == old(assignments) + [NewRow(old(Tables()), cleaner, site, kind, start, end)]
    {
      AssignAnswers(sites, Tables(), cleaner, site, kind, start, end);
      var status := DraftAssignment;
      if cleaners[cleaner].status == Inactive {
        return Err(CleanerInactive);
      }
      if cleaners[cleaner].status == ActiveCleaner {
        status := Active;
      }
      if end.Some? && end.value < start {
        return Err(InvalidDates);
      }
      if !Admits(sites[site].mode, kind) {
        return Err(TypeMismatch);
      }
      if status == Active {
        for i := 0 to |assignments|
          invariant forall k :: 0 <= k < i ==> !Occupies(assignments[k], cleaner, site)
        {
          if Occupies(assignments[i], cleaner, site) {
            return Err(Duplicate);
          }
        }
      }
      assignments := assignments + [Assignment(cleaner, site, kind, status, start, end)];
      return Ok(|assignments| - 1);
    }

    /** Ends a person's open assignments, one row at a time. */
    method EndOpenOf(cleaner: nat, date: int)
      modifies this`assignments
      ensures assignments == EndOpen(old(assignments), cleaner, date)
    {
      for i := 0 to |assignments|
        invariant |assignments| == |old(assignments)|
        invariant forall k :: 0 <= k < i ==> assignments[k] == EndOpen(old(assignments), cleaner, date)[k]
        invariant forall k :: i <= k < |assignments| ==> assignments[k] == old(assignments)[k]
      {
        if assignments[i].cleaner == cleaner && Open(assignments[i]) {
          assignments := assignments[i := EndedRow(assignments[i], date)];
        }
      }
    }

    /** Checks every plan, and fixes the kind of each new assignment, before anything is written. */
    method PlanAll(chosen: seq<nat>, site: int) returns (r: Result<seq<Kind>, Refusal>)
      requires site in sites && forall i :: 0 <= i < |chosen| ==> chosen[i] < |cleaners|
      ensures r.Err? ==> FirstPlanError(Tables(), chosen, site) == Some(r.error)
      ensures r.Ok? ==> FirstPlanError(Tables(), chosen, site).None? && |r.value| == |chosen|
                        && forall k :: 0 <= k < |chosen| ==>
                             r.value[k] == KindFor(sites[site].mode, CurrentKind(assignments, chosen[k]))
      ensures r.Ok? ==> forall k :: 0 <= k < |chosen| ==>
                          RightKind(sites[site].mode, assignments, chosen[k], r.value[k])
    {
      var kinds: seq<Kind> := [];
      for k := 0 to |chosen|
        invariant |kinds| == k
        invariant FirstPlanError(Tables(), chosen[..k], site).None?
        invariant forall j :: 0 <= j < k ==>
                    kinds[j] == KindFor(sites[site].mode, CurrentKind(assignments, chosen[j]))
      {
        assert chosen[..k + 1][..k] == chosen[..k];
        var error := PlanError(State(cleaners, assignments, programs), chosen[k], site);
        if error.Some? {
          FirstErrorStays(Tables(), chosen, site, k + 1);
          return Err(error.value);
        }
        kinds := kinds + [KindFor(sites[site].mode, CurrentKind(assignments, chosen[k]))];
      }
      assert chosen[..|chosen|] == chosen;
      KindsAreRight(sites[site].mode, assignments, chosen, kinds);
      return Ok(kinds);
    }

    /** Carries the plans out person by person; a failure rolls the tables back. */
    method CarryOut(chosen: seq<nat>, kinds: seq<Kind>, site: int, date: int) returns (r: Result<(), Refusal>)
      requires site in sites && |kinds| == |chosen| && forall i :: 0 <= i < |chosen| ==> chosen[i] < |cleaners|
      requires forall k :: 0 <= k < |chosen| ==>
                 kinds[k] == KindFor(sites[site].mode, CurrentKind(assignments, chosen[k]))
      modifies this`assignments, this`programs
      ensures var r' := TransferEach(sites, old(Tables()), chosen, site, date);
              && (r'.Ok? ==> r.Ok? && Tables() == r'.value)
              && (r'.Err? ==> r == Err(r'.error) && Tables() == old(Tables()))
    {
      ghost var before := Tables();
      var savedAssignments, savedPrograms := assignments, programs;
      for k := 0 to |chosen|
        invariant cleaners == before.cleaners
        invariant TransferEach(sites, before, chosen[..k], site, date) == Ok(Tables())
      {
        assert chosen[..k + 1][..k] == chosen[..k];
        EndOpenOf(chosen[k], date);
        var placed := AssignToSite(chosen[k], site, kinds[k], date, None);
        if placed.Err? {
          TransferErrorStays(sites, before, chosen, site, date, k + 1);
          assignments, programs := savedAssignments, savedPrograms;
          return Err(placed.error);
        }
        programs := MovePrograms(programs, chosen[k], cleaners[chosen[k]].status, site, date);
      }
      assert chosen[..|chosen|] == chosen;
      return Ok(());
    }

    /** The batch. */
    method TransferBatch(ids: seq<nat>, site: int, date: int, reason: string) returns (r: Result<nat, Refusal>)
      requires Valid(sites, Tables()) && site in sites
      modifies this`assignments, this`programs
      ensures Valid(sites, Tables())
      ensures var r' := Transfer(sites, old(Tables()), ids, site, date, reason);
              && (r'.Ok? ==> r == Ok(|Ids(ids)|) && Tables() == r'.value)
              && (r'.Err? ==> r == Err(r'.error) && Tables() == old(Tables()))
      ensures r.Ok? <==> && ids != [] && |set id | id in ids| <= 100 && sites[site].isActive && HasText(reason)
                         && forall id :: id in ids ==> CanMove(old(Tables()), id, site)
      ensures r.Ok? ==> forall id :: id in ids ==>
                          id < |cleaners| && exists n :: PlacedRight(sites, old(Tables()), Tables(), id, site, date, n)
    {
      BatchAnswers(sites, Tables(), ids, site, date, reason);
      TransferKeepsValid(sites, Tables(), ids, site, date, reason);
      var distinct := Ids(ids);
      if distinct == {} {
        return Err(NoCleaners);
      }
      if |distinct| > 100 {
        return Err(BatchTooLarge);
      }
      if !sites[site].isActive {
        return Err(DestinationInactive);
      }
      if Blank(reason) {
        return Err(ReasonRequired);
      }
      var chosen := Chosen(ids, |cleaners|);
      if |chosen| != |distinct| {
        return Err(CleanerNotFound);
      }
      var plan := PlanAll(chosen, site);
      if plan.Err? {
        return Err(plan.error);
      }
      var done := CarryOut(chosen, plan.value, site, date);
      return match done case Ok(_) => Ok(|distinct|) case Err(e) => Err(e);
    }
  }

  /** What a refused batch was refused for: its form, an unknown person, the first who may not move, or one blocked. */
  ghost predicate BatchRefusedFor(sites: Sites, st: State, ids: seq<nat>, site: int, reason: string, error: Refusal)
    requires site in sites
  {
    var size := |set id | id in ids|;
    var formed := ids != [] && size <= 100 && sites[site].isActive && HasText(reason);
    match error
    case NoCleaners => ids == []
    case BatchTooLarge => size > 100
    case DestinationInactive => ids != [] && size <= 100 && !sites[site].isActive
    case ReasonRequired => ids != [] && size <= 100 && sites[site].isActive && !HasText(reason)
    case CleanerNotFound => formed && exists id :: id in ids && id >= |st.cleaners|
    case CleanerInactive =>
      formed && exists id: nat :: FirstBarred(st, ids, site, id) && st.cleaners[id].status == Inactive
    case AlreadyAssigned =>
      formed && exists id: nat :: FirstBarred(st, ids, site, id) && st.cleaners[id].status != Inactive
                             && OnlyThere(st, id, site)
    case Duplicate => formed && exists id :: id in ids && id < |st.cleaners| && BlockedAt(st, id, site)
    case _ => false
  }

  predicate OnlyThere(st: State, id: nat, site: int) {
    !OpenElsewhere(st.assignments, id, site) && !HasNoOpen(st.assignments, id)
  }

  predicate Barred(st: State, id: nat, site: int) {
    id < |st.cleaners| && (st.cleaners[id].status == Inactive || OnlyThere(st, id, site))
  }

  /** The first of the people named, in key order, who is inactive or already placed only there. */
  ghost predicate FirstBarred(st: State, ids: seq<nat>, site: int, id: nat) {
    id in ids && Barred(st, id, site) && forall other :: other in ids && other < id ==> !Barred(st, other, site)
  }

  lemma {:induction false} FirstPlanErrorTells(st: State, chosen: seq<nat>, site: int) returns (k: nat)
    requires forall i :: 0 <= i < |chosen| ==> chosen[i] < |st.cleaners|
    requires FirstPlanError(st, chosen, site).Some?
    ensures k < |chosen| && PlanError(st, chosen[k], site) == FirstPlanError(st, chosen, site)
    ensures forall j :: 0 <= j < k ==> PlanError(st, chosen[j], site).None?
  {
    var init := chosen[..|chosen| - 1];
    if FirstPlanError(st, init, site).Some? {
      k := FirstPlanErrorTells(st, init, site);
    } else {
      k := |init|;
      NoPlanError(st, init, site);
      assert forall j :: 0 <= j < |init| ==> chosen[j] == init[j];
    }
  }

  lemma PlanErrorTells(st: State, id: nat, site: int)
    requires id < |st.cleaners|
    ensures PlanError(st, id, site).Some? <==> Barred(st, id, site)
    ensures PlanError(st, id, site) == Some(CleanerInactive) <==> st.cleaners[id].status == Inactive
    ensures PlanError(st, id, site).Some? ==> PlanError(st, id, site).value in {CleanerInactive, AlreadyAssigned}
  {
    NotAllThere(st.assignments, id, site);
  }

  lemma BatchRefusalTells(sites: Sites, st: State, ids: seq<nat>, site: int, date: int, reason: string)
    requires site in sites && Transfer(sites, st, ids, site, date, reason).Err?
    ensures BatchRefusedFor(sites, st, ids, site, reason, Transfer(sites, st, ids, site, date, reason).error)
  {
    BlankMeansNoText(reason);
    var chosen := Chosen(ids, |st.cleaners|);
    assert Ids(ids) == set id | id in ids;
    if ids != [] {
      assert ids[0] in Ids(ids);
    }
    FoundAll(ids, |st.cleaners|);
    if |chosen| == |Ids(ids)| {
      if FirstPlanError(st, chosen, site).Some? {
        FirstBarredIsFound(st, ids, site);
      } else {
        NoPlanError(st, chosen, site);
        forall i | 0 <= i < |chosen| ensures st.cleaners[chosen[i]].status != Inactive {
          PlanErrorTells(st, chosen[i], site);
        }
        TransferEachEffect(sites, st, chosen, site, date);
      }
    }
  }

  lemma FirstBarredIsFound(st: State, ids: seq<nat>, site: int)
    requires FirstPlanError(st, Chosen(ids, |st.cleaners|), site).Some?
    ensures var error := FirstPlanError(st, Chosen(ids, |st.cleaners|), site).value;
            exists id: nat :: && FirstBarred(st, ids, site, id)
                         && if st.cleaners[id].status == Inactive then error == CleanerInactive
                            else error == AlreadyAssigned && OnlyThere(st, id, site)
  {
    var chosen := Chosen(ids, |st.cleaners|);
    var k := FirstPlanErrorTells(st, chosen, site);
    PlanErrorTells(st, chosen[k], site);
    forall other | other in ids && other < chosen[k] ensures !Barred(st, other, site) {
      assert other in chosen;
      var j :| 0 <= j < |chosen| && chosen[j] == other;
      assert j < k;
      PlanErrorTells(st, other, site);
    }
    assert FirstBarred(st, ids, site, chosen[k]);
  }

  lemma BatchAnswers(sites: Sites, st: State, ids: seq<nat>, site: int, date: int, reason: string)
    requires site in sites
    ensures var r := Transfer(sites, st, ids, site, date, reason);
            && (r.Ok? <==> && ids != [] && |set id | id in ids| <= 100 && sites[site].isActive && HasText(reason)
                           && forall id :: id in ids ==> CanMove(st, id, site))
            && (r.Ok? ==> forall id :: id in ids ==>
                            id < |st.cleaners| && exists n :: PlacedRight(sites, st, r.value, id, site, date, n))
  {
    TransferSucceedsWhenAllCanMove(sites, st, ids, site, date, reason);
    var r := Transfer(sites, st, ids, site, date, reason);
    if r.Ok? {
      forall id | id in ids
        ensures id < |st.cleaners| && exists n :: PlacedRight(sites, st, r.value, id, site, date, n)
      {
        var n := OneOpenPlacementEach(sites, st, ids, site, date, reason, id);
      }
    }
  }

  lemma {:induction false} FirstErrorStays(st: State, chosen: seq<nat>, site: int, n: nat)
    requires forall i :: 0 <= i < |chosen| ==> chosen[i] < |st.cleaners|
    requires n <= |chosen| && FirstPlanError(st, chosen[..n], site).Some?
    ensures FirstPlanError(st, chosen, site) == FirstPlanError(st, chosen[..n], site)
  {
    if n == |chosen| {
      assert chosen[..n] == chosen;
    } else {
      assert chosen[..|chosen| - 1][..n] == chosen[..n];
      FirstErrorStays(st, chosen[..|chosen| - 1], site, n);
    }
  }

  lemma {:induction false} TransferErrorStays(sites: Sites, st: State, chosen: seq<nat>, site: int, date: int, n: nat)
    requires (forall i :: 0 <= i < |chosen| ==> chosen[i] < |st.cleaners|) && site in sites
    requires n <= |chosen| && TransferEach(sites, st, chosen[..n], site, date).Err?
    ensures TransferEach(sites, st, chosen, site, date) == TransferEach(sites, st, chosen[..n], site, date)
  {
    if n == |chosen| {
      assert chosen[..n] == chosen;
    } else {
      assert chosen[..|chosen| - 1][..n] == chosen[..n];
      TransferErrorStays(sites, st, chosen[..|chosen| - 1], site, date, n);
    }
  }
}
