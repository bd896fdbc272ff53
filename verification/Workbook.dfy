/**
  The HR workbook: row validation with duplicate detection, and the all-or-nothing import that
  finds or creates each person, places them at the configured site and starts trainee programmes.
*/
module Workbook {
  import opened Wrappers
  import opened Staffing
  import opened Workforce
  import opened Texts

  // ---- Rows ----

  /**
    One sheet row: its stripped cell texts by column, and the dates of those cells that hold or
    spell a valid one.
  */
  datatype Row = Row(number: nat, text: map<string, string>, dates: map<string, int>)

  datatype CleanRow = CleanRow(number: nat, idType: string, idNumber: string, registration: int)

  type Key = (string, string)

  const REQUIRED: seq<string> :=
    ["first_name", "last_name", "id_type", "id_number", "gender", "birth_date", "registration_date"]
  const DATE_FIELDS: seq<string> := ["birth_date", "registration_date"]
  const ID_TYPES: seq<string> := ["birth_certificate", "nida", "zanzibar_id"]
  const GENDERS: seq<string> := ["male", "female", "other", "unspecified"]

  function Cell(row: Row, field: string): string {
    if field in row.text then row.text[field] else ""
  }

  /** Upper case over the ASCII letters. */
  function Upper(s: string): (u: string)
    ensures |u| == |s|
    ensures forall i :: 0 <= i < |s| ==>
              if 'a' <= s[i] <= 'z' then 'A' <= u[i] <= 'Z' && u[i] as int - 'A' as int == s[i] as int - 'a' as int
              else u[i] == s[i]
  {
    if s == "" then ""
    else Upper(s[..|s| - 1])
         + [if 'a' <= s[|s| - 1] <= 'z' then (s[|s| - 1] as int - 32) as char else s[|s| - 1]]
  }

  function KeyOf(row: Row): Key {
    (Cell(row, "id_type"), Upper(Cell(row, "id_number")))
  }

  predicate Identified(row: Row) {
    Cell(row, "id_type") != "" && Cell(row, "id_number") != ""
  }

  // ---- Validation ----

  function MissingErrors(row: Row, n: nat): seq<string>
    requires n <= |REQUIRED|
  {
    if n == 0 then []
    else MissingErrors(row, n - 1)
         + if Cell(row, REQUIRED[n - 1]) == "" then [REQUIRED[n - 1] + " is required"] else []
  }

  function ChoiceErrors(row: Row, seen: set<Key>): seq<string> {
    (if Cell(row, "id_type") != "" && Cell(row, "id_type") !in ID_TYPES
     then ["id_type is not an allowed value"] else [])
    + (if Cell(row, "gender") != "" && Cell(row, "gender") !in GENDERS
       then ["gender is not an allowed value"] else [])
    + (if Identified(row) && KeyOf(row) in seen
       then ["duplicate identity appears more than once in this workbook"] else [])
  }

  function DateErrors(row: Row, n: nat): seq<string>
    requires n <= |DATE_FIELDS|
  {
    if n == 0 then []
    else DateErrors(row, n - 1)
         + if Cell(row, DATE_FIELDS[n - 1]) != "" && DATE_FIELDS[n - 1] !in row.dates
           then [DATE_FIELDS[n - 1] + " must be a valid YYYY-MM-DD date."] else []
  }

  function Errors(row: Row, seen: set<Key>): seq<string> {
    MissingErrors(row, |REQUIRED|) + ChoiceErrors(row, seen) + DateErrors(row, |DATE_FIELDS|)
  }

  /** A row with an identity is remembered even when it is rejected. */
  function Remember(row: Row, seen: set<Key>): set<Key> {
    if Identified(row) then seen + {KeyOf(row)} else seen
  }

  function Cleaned(row: Row): CleanRow
    requires "registration_date" in row.dates
  {
    CleanRow(row.number, Cell(row, "id_type"), Cell(row, "id_number"), row.dates["registration_date"])
  }

  function Seen(rows: seq<Row>): set<Key> {
    if rows == [] then {} else Remember(rows[|rows| - 1], Seen(rows[..|rows| - 1]))
  }

  predicate Filled(row: Row, field: string) {
    field in row.text && row.text[field] != ""
  }

  /** Every required cell filled, both choices allowed, both dates valid. */
  predicate WellFormed(row: Row) {
    && Filled(row, "first_name") && Filled(row, "last_name") && Filled(row, "id_number")
    && Filled(row, "id_type") && row.text["id_type"] in {"birth_certificate", "nida", "zanzibar_id"}
    && Filled(row, "gender") && row.text["gender"] in {"male", "female", "other", "unspecified"}
    && Filled(row, "birth_date") && "birth_date" in row.dates
    && Filled(row, "registration_date") && "registration_date" in row.dates
  }

  /** The same, read off the service's lists. */
  predicate Passes(row: Row) {
    && (forall i :: 0 <= i < |REQUIRED| ==> Cell(row, REQUIRED[i]) != "")
    && Cell(row, "id_type") in ID_TYPES && Cell(row, "gender") in GENDERS
    && "birth_date" in row.dates && "registration_date" in row.dates
  }

  lemma PassesWhenWellFormed(row: Row)
    ensures Passes(row) <==> WellFormed(row)
  {
    assert |REQUIRED| == 7;
    assert REQUIRED[0] == "first_name" && REQUIRED[1] == "last_name" && REQUIRED[2] == "id_type";
    assert REQUIRED[3] == "id_number" && REQUIRED[4] == "gender" && REQUIRED[5] == "birth_date";
    assert REQUIRED[6] == "registration_date";
    forall field: string ensures Cell(row, field) != "" <==> Filled(row, field) {
    }
    assert forall c :: c in ID_TYPES <==> c in {"birth_certificate", "nida", "zanzibar_id"};
    assert forall c :: c in GENDERS <==> c in {"male", "female", "other", "unspecified"};
  }

  lemma {:induction false} NoMissing(row: Row, n: nat)
    requires n <= |REQUIRED|
    ensures MissingErrors(row, n) == [] <==> forall i :: 0 <= i < n ==> Cell(row, REQUIRED[i]) != ""
  {
    if n > 0 {
      NoMissing(row, n - 1);
    }
  }

  lemma NoErrors(row: Row, seen: set<Key>)
    ensures Errors(row, seen) == [] <==> WellFormed(row) && KeyOf(row) !in seen
  {
    PassesWhenWellFormed(row);
    PassesWhenNoErrors(row, seen);
  }

  lemma PassesWhenNoErrors(row: Row, seen: set<Key>)
    ensures Errors(row, seen) == [] <==> Passes(row) && KeyOf(row) !in seen
  {
    NoMissing(row, |REQUIRED|);
    assert DateErrors(row, 0) == [];
    assert DateErrors(row, 1) == [] <==> Cell(row, "birth_date") == "" || "birth_date" in row.dates;
    assert DateErrors(row, 2) == []
      <==> DateErrors(row, 1) == [] && (Cell(row, "registration_date") == "" || "registration_date" in row.dates);
    if MissingErrors(row, |REQUIRED|) == [] {
      assert Cell(row, REQUIRED[2]) != "" && Cell(row, REQUIRED[3]) != "" && Cell(row, REQUIRED[4]) != "";
      assert Cell(row, REQUIRED[5]) != "" && Cell(row, REQUIRED[6]) != "";
    }
  }

  // ---- Preview ----

  datatype Preview = Preview(accepted: seq<CleanRow>, rejected: seq<(nat, seq<string>)>)

  function PreviewOf(rows: seq<Row>): Preview {
    if rows == [] then Preview([], [])
    else
      var init, row := rows[..|rows| - 1], rows[|rows| - 1];
      var before, errors := PreviewOf(init), Errors(row, Seen(init));
      NoErrors(row, Seen(init));
      if errors == [] then before.(accepted := before.accepted + [Cleaned(row)])
      else before.(rejected := before.rejected + [(row.number, errors)])
  }

  predicate Carries(row: Row, key: Key) {
    Identified(row) && KeyOf(row) == key
  }

  lemma {:induction false} SeenMeans(rows: seq<Row>, key: Key)
    ensures key in Seen(rows) <==> exists j :: 0 <= j < |rows| && Carries(rows[j], key)
  {
    if rows != [] {
      SeenMeans(rows[..|rows| - 1], key);
      SomeSplits(rows, row => Carries(row, key));
    }
  }

  lemma SomeSplits<T>(s: seq<T>, p: T -> bool)
    requires s != []
    ensures var init := s[..|s| - 1];
            (exists j :: 0 <= j < |s| && p(s[j])) <==> (exists j :: 0 <= j < |init| && p(init[j])) || p(s[|s| - 1])
  {
    var init := s[..|s| - 1];
    if j :| 0 <= j < |init| && p(init[j]) {
      assert s[j] == init[j];
    }
    if j :| 0 <= j < |s| && p(s[j]) {
      assert j < |init| ==> init[j] == s[j];
    }
  }

  /** A row passes exactly when it is well formed and no earlier row, accepted or not, carries its identity. */
  lemma RowPassesWhenFirst(rows: seq<Row>, i: nat)
    requires i < |rows|
    ensures Errors(rows[i], Seen(rows[..i])) == []
       <==> WellFormed(rows[i]) && forall j :: 0 <= j < i && Identified(rows[j]) ==> KeyOf(rows[j]) != KeyOf(rows[i])
  {
    NoErrors(rows[i], Seen(rows[..i]));
    NotSeenMeans(rows, i, KeyOf(rows[i]));
  }

  lemma NotSeenMeans(rows: seq<Row>, i: nat, key: Key)
    requires i <= |rows|
    ensures key !in Seen(rows[..i]) <==> forall j :: 0 <= j < i && Identified(rows[j]) ==> KeyOf(rows[j]) != key
  {
    SeenMeans(rows[..i], key);
    assert forall j :: 0 <= j < i ==> rows[..i][j] == rows[j];
    assert forall j :: 0 <= j < i ==> (Carries(rows[j], key) <==> Identified(rows[j]) && KeyOf(rows[j]) == key);
  }

  function Tick(wrong: bool): nat {
    if wrong then 1 else 0
  }

  /** The required columns in which a row has nothing. */
  function Unfilled(row: Row): set<string> {
    set field |
      && field in {"first_name", "last_name", "id_type", "id_number", "gender", "birth_date", "registration_date"}
      && !Filled(row, field)
  }

  /** Both halves of an identity are there, and an earlier row has the same two. */
  predicate Repeats(rows: seq<Row>, i: nat)
    requires i < |rows|
  {
    && Filled(rows[i], "id_type") && Filled(rows[i], "id_number")
    && exists j :: 0 <= j < i && Filled(rows[j], "id_type") && Filled(rows[j], "id_number")
                   && rows[j].text["id_type"] == rows[i].text["id_type"]
                   && Upper(rows[j].text["id_number"]) == Upper(rows[i].text["id_number"])
  }

  /** A row has one error for each empty required cell, unknown choice, unreadable date, and a repeated identity. */
  lemma ErrorsAreCounted(rows: seq<Row>, i: nat)
    requires i < |rows|
    ensures var row := rows[i];
            |Errors(row, Seen(rows[..i]))|
            == |Unfilled(row)|
               + Tick(Filled(row, "id_type") && row.text["id_type"] !in {"birth_certificate", "nida", "zanzibar_id"})
               + Tick(Filled(row, "gender") && row.text["gender"] !in {"male", "female", "other", "unspecified"})
               + Tick(Repeats(rows, i))
               + Tick(Filled(row, "birth_date") && "birth_date" !in row.dates)
               + Tick(Filled(row, "registration_date") && "registration_date" !in row.dates)
  {
    var row := rows[i];
    MissingAreCounted(row);
    DatesAreCounted(row);
    RepeatsWhenSeen(rows, i);
    ChoicesAreCounted(row, Seen(rows[..i]));
  }

  lemma MissingAreCounted(row: Row)
    ensures |MissingErrors(row, |REQUIRED|)| == |Unfilled(row)|
  {
    RequiredAreDistinct();
    MissingAreEmpty(row, |REQUIRED|);
    EmptyAreUnfilled(row);
  }

  lemma RequiredAreDistinct()
    ensures forall i, j :: 0 <= i < j < |REQUIRED| ==> REQUIRED[i] != REQUIRED[j]
  {
    assert |REQUIRED[0]| == 10 && |REQUIRED[1]| == 9 && |REQUIRED[2]| == 7 && |REQUIRED[3]| == 9;
    assert |REQUIRED[4]| == 6 && |REQUIRED[5]| == 10 && |REQUIRED[6]| == 17;
    assert REQUIRED[0][0] != REQUIRED[5][0] && REQUIRED[1][0] != REQUIRED[3][0];
  }

  function EmptyOnes(row: Row, n: nat): set<string>
    requires n <= |REQUIRED|
  {
    set i | 0 <= i < n && Cell(row, REQUIRED[i]) == "" :: REQUIRED[i]
  }

  lemma {:induction false} MissingAreEmpty(row: Row, n: nat)
    requires n <= |REQUIRED| && forall i, j :: 0 <= i < j < |REQUIRED| ==> REQUIRED[i] != REQUIRED[j]
    ensures |MissingErrors(row, n)| == |EmptyOnes(row, n)|
  {
    if n > 0 {
      MissingAreEmpty(row, n - 1);
      assert REQUIRED[n - 1] !in EmptyOnes(row, n - 1);
      assert EmptyOnes(row, n)
             == EmptyOnes(row, n - 1) + if Cell(row, REQUIRED[n - 1]) == "" then {REQUIRED[n - 1]} else {};
    }
  }

  lemma EmptyAreUnfilled(row: Row)
    ensures EmptyOnes(row, |REQUIRED|) == Unfilled(row)
  {
    assert REQUIRED[0] == "first_name" && REQUIRED[1] == "last_name" && REQUIRED[2] == "id_type";
    assert REQUIRED[3] == "id_number" && REQUIRED[4] == "gender" && REQUIRED[5] == "birth_date";
    assert REQUIRED[6] == "registration_date";
  }

  lemma DatesAreCounted(row: Row)
    ensures |DateErrors(row, |DATE_FIELDS|)|
            == Tick(Filled(row, "birth_date") && "birth_date" !in row.dates)
               + Tick(Filled(row, "registration_date") && "registration_date" !in row.dates)
  {
    assert DateErrors(row, 0) == [];
    assert |DateErrors(row, 1)| == Tick(Cell(row, DATE_FIELDS[0]) != "" && DATE_FIELDS[0] !in row.dates);
    assert |DateErrors(row, 2)|
           == |DateErrors(row, 1)| + Tick(Cell(row, DATE_FIELDS[1]) != "" && DATE_FIELDS[1] !in row.dates);
  }

  lemma ChoicesAreCounted(row: Row, seen: set<Key>)
    ensures |ChoiceErrors(row, seen)|
            == Tick(Filled(row, "id_type") && row.text["id_type"] !in {"birth_certificate", "nida", "zanzibar_id"})
               + Tick(Filled(row, "gender") && row.text["gender"] !in {"male", "female", "other", "unspecified"})
               + Tick(Identified(row) && KeyOf(row) in seen)
  {
    assert forall c :: c in ID_TYPES <==> c in {"birth_certificate", "nida", "zanzibar_id"};
    assert forall c :: c in GENDERS <==> c in {"male", "female", "other", "unspecified"};
  }

  lemma RepeatsWhenSeen(rows: seq<Row>, i: nat)
    requires i < |rows|
    ensures Identified(rows[i]) && KeyOf(rows[i]) in Seen(rows[..i]) <==> Repeats(rows, i)
  {
    NotSeenMeans(rows, i, KeyOf(rows[i]));
    forall row: Row ensures Identified(row) <==> Filled(row, "id_type") && Filled(row, "id_number") {
    }
  }

  function CleanKey(row: CleanRow): Key {
    (row.idType, Upper(row.idNumber))
  }

  /**
    Every row is either accepted or rejected, the accepted ones have pairwise distinct identities,
    and each of these was remembered.
  */
  lemma {:induction false} PreviewPartitions(rows: seq<Row>)
    ensures var p := PreviewOf(rows);
            && |p.accepted| + |p.rejected| == |rows|
            && (forall i, j :: 0 <= i < j < |p.accepted| ==> CleanKey(p.accepted[i]) != CleanKey(p.accepted[j]))
            && (forall i :: 0 <= i < |p.accepted| ==> CleanKey(p.accepted[i]) in Seen(rows))
  {
    if rows != [] {
      var init, row := rows[..|rows| - 1], rows[|rows| - 1];
      PreviewPartitions(init);
      if Errors(row, Seen(init)) == [] {
        AcceptedRow(row, Seen(init));
      }
    }
  }

  lemma AcceptedRow(row: Row, seen: set<Key>)
    requires Errors(row, seen) == []
    ensures WellFormed(row) && Identified(row) && CleanKey(Cleaned(row)) == KeyOf(row) && KeyOf(row) !in seen
  {
    NoErrors(row, seen);
    assert Cell(row, REQUIRED[2]) != "" && Cell(row, REQUIRED[3]) != "";
  }

  // ---- Import of one row ----

  predicate IsPerson(c: Cleaner, key: Key) {
    c.idType == key.0 && c.idNumber == key.1
  }

  function FindPerson(cleaners: seq<Cleaner>, key: Key, n: nat): (id: Option<nat>)
    requires n <= |cleaners|
    ensures id.Some? ==> id.value < n && IsPerson(cleaners[id.value], key)
    ensures id.None? ==> forall i :: 0 <= i < n ==> !IsPerson(cleaners[i], key)
  {
    if n == 0 then None
    else
      var earlier := FindPerson(cleaners, key, n - 1);
      if earlier.Some? then earlier else if IsPerson(cleaners[n - 1], key) then Some(n - 1) else None
  }

  predicate OpenAt(rows: seq<Assignment>, cleaner: nat, site: int) {
    exists i :: 0 <= i < |rows| && rows[i].cleaner == cleaner && rows[i].site == site && Open(rows[i])
  }

  function StartProgram(st: State, cleaner: nat, site: int, start: int): Result<State, Refusal>
    requires cleaner < |st.cleaners|
  {
    if st.cleaners[cleaner].status == ActiveCleaner then Err(AlreadyActive)
    else Ok(st.(programs := st.programs + [Program(cleaner, site, InTraining, start, start + 90)],
                cleaners := st.cleaners[cleaner := st.cleaners[cleaner].(status := Trainee)]))
  }

  /** The table with the row's person in it, and their key. */
  function WithPerson(st: State, row: CleanRow, status: CleanerStatus): (r: (State, nat))
    ensures r.1 < |r.0.cleaners| && IsPerson(r.0.cleaners[r.1], CleanKey(row))
  {
    match FindPerson(st.cleaners, CleanKey(row), |st.cleaners|)
    case Some(id) => (st, id)
    case None =>
      (st.(cleaners := st.cleaners + [Cleaner(row.idType, Upper(row.idNumber), status)]), |st.cleaners|)
  }

  function Placed(sites: Sites, st: State, id: nat, site: int, start: int): (r: Result<State, Refusal>)
    requires id < |st.cleaners| && site in sites
    ensures r.Ok? ==> r.value.cleaners == st.cleaners
  {
    if OpenAt(st.assignments, id, site) then Ok(st) else Assign(sites, st, id, site, FullTime, start, None)
  }

  function Enrolled(st: State, id: nat, site: int, start: int, status: CleanerStatus): Result<State, Refusal>
    requires id < |st.cleaners|
  {
    if status == Trainee && !Training(st.programs, id) then StartProgram(st, id, site, start) else Ok(st)
  }

  function ImportRow(sites: Sites, st: State, row: CleanRow, status: CleanerStatus, site: int): Result<State, Refusal>
    requires site in sites
  {
    var (st1, id) := WithPerson(st, row, status);
    match Placed(sites, st1, id, site, row.registration)
    case Err(e) => Err(e)
    case Ok(st2) => Enrolled(st2, id, site, row.registration, status)
  }

  datatype Imported = Imported(st: State, created: seq<nat>, matched: seq<nat>)

  function ImportEach(sites: Sites, st: State, rows: seq<CleanRow>, status: CleanerStatus, site: int)
    : Result<Imported, Refusal>
    requires site in sites
  {
    if rows == [] then Ok(Imported(st, [], []))
    else match ImportEach(sites, st, rows[..|rows| - 1], status, site)
      case Err(e) => Err(e)
      case Ok(before) =>
        var row := rows[|rows| - 1];
        match ImportRow(sites, before.st, row, status, site)
        case Err(e) => Err(e)
        case Ok(st') =>
          match FindPerson(before.st.cleaners, CleanKey(row), |before.st.cleaners|)
          case Some(id) => Ok(Imported(st', before.created, before.matched + [id]))
          case None => Ok(Imported(st', before.created + [|before.st.cleaners|], before.matched))
  }

  datatype Answer = Refused(error: Refusal) | NotCommitted(preview: Preview) | Committed(imported: Imported)

  function Import(sites: Sites, st: State, rows: seq<Row>, status: CleanerStatus, site: int): Answer
    requires site in sites
  {
    if status != Trainee && status != ActiveCleaner then Refused(StatusNotAllowed)
    else if !sites[site].isActive then Refused(DestinationInactive)
    else
      var preview := PreviewOf(rows);
      if preview.rejected != [] then NotCommitted(preview)
      else match ImportEach(sites, st, preview.accepted, status, site)
        case Err(e) => Refused(e)
        case Ok(imported) => Committed(imported)
  }

  function After(st: State, answer: Answer): State {
    match answer
    case Committed(imported) => imported.st
    case _ => st
  }

  // ---- What one imported row leaves behind ----

  /** The row's person is there, placed at the site and, for trainees, in training. */
  predicate Settled(st: State, key: Key, status: CleanerStatus, site: int) {
    exists id :: 0 <= id < |st.cleaners| && SettledAs(st, id, key, status, site)
  }

  predicate SettledAs(st: State, id: nat, key: Key, status: CleanerStatus, site: int)
    requires id < |st.cleaners|
  {
    IsPerson(st.cleaners[id], key) && OpenAt(st.assignments, id, site)
    && (status == Trainee ==> Training(st.programs, id))
  }

  /** Tables only grow: people keep identity, and neither placements nor programmes are taken away. */
  ghost predicate Grows(st: State, st': State) {
    && |st.cleaners| <= |st'.cleaners|
    && (forall i :: 0 <= i < |st.cleaners| ==>
          st'.cleaners[i].idType == st.cleaners[i].idType && st'.cleaners[i].idNumber == st.cleaners[i].idNumber)
    && st.assignments <= st'.assignments
    && st.programs <= st'.programs
  }

  lemma GrowsKeepsSettled(st: State, st': State, key: Key, status: CleanerStatus, site: int)
    requires Grows(st, st') && Settled(st, key, status, site)
    ensures Settled(st', key, status, site)
  {
    var id :| 0 <= id < |st.cleaners| && SettledAs(st, id, key, status, site);
    var a :| 0 <= a < |st.assignments| && st.assignments[a].cleaner == id && st.assignments[a].site == site
             && Open(st.assignments[a]);
    assert st'.assignments[a] == st.assignments[a];
    if status == Trainee {
      var p :| 0 <= p < |st.programs| && st.programs[p].cleaner == id && InProgress(st.programs[p]);
      assert st'.programs[p] == st.programs[p];
    }
    assert SettledAs(st', id, key, status, site);
  }

  lemma RowSettles(sites: Sites, st: State, row: CleanRow, status: CleanerStatus, site: int)
    requires site in sites && ImportRow(sites, st, row, status, site).Ok?
    ensures var st' := ImportRow(sites, st, row, status, site).value;
            Grows(st, st') && Settled(st', CleanKey(row), status, site)
    ensures var st' := ImportRow(sites, st, row, status, site).value;
            |st'.cleaners| == |WithPerson(st, row, status).0.cleaners|
  {
    var (st1, id) := WithPerson(st, row, status);
    var st2 := Placed(sites, st1, id, site, row.registration).value;
    if !OpenAt(st1.assignments, id, site) {
      var a := |st1.assignments|;
      assert st2.assignments[a].cleaner == id && st2.assignments[a].site == site && Open(st2.assignments[a]);
    }
    var st' := Enrolled(st2, id, site, row.registration, status).value;
    if st' != st2 {
      var p := |st2.programs|;
      assert st'.programs[p].cleaner == id && InProgress(st'.programs[p]);
    }
    assert SettledAs(st', id, CleanKey(row), status, site);
  }

  /** With one row per identity, the person found is the one that is settled. */
  lemma SettledRowIsDone(sites: Sites, st: State, row: CleanRow, status: CleanerStatus, site: int)
    requires site in sites && Valid(sites, st) && Settled(st, CleanKey(row), status, site)
    ensures ImportRow(sites, st, row, status, site) == Ok(st)
    ensures FindPerson(st.cleaners, CleanKey(row), |st.cleaners|).Some?
  {
    var id :| 0 <= id < |st.cleaners| && SettledAs(st, id, CleanKey(row), status, site);
    var found := FindPerson(st.cleaners, CleanKey(row), |st.cleaners|);
    assert found.Some?;
    SamePerson(sites, st, found.value, id, CleanKey(row));
  }

  lemma SamePerson(sites: Sites, st: State, a: nat, b: nat, key: Key)
    requires Valid(sites, st) && a < |st.cleaners| && b < |st.cleaners|
    requires IsPerson(st.cleaners[a], key) && IsPerson(st.cleaners[b], key)
    ensures a == b
  {
  }

  lemma RowKeepsValid(sites: Sites, st: State, row: CleanRow, status: CleanerStatus, site: int)
    requires site in sites && Valid(sites, st) && ImportRow(sites, st, row, status, site).Ok?
    ensures Valid(sites, ImportRow(sites, st, row, status, site).value)
  {
    var (st1, id) := WithPerson(st, row, status);
    assert Valid(sites, st1);
    var st2 := Placed(sites, st1, id, site, row.registration).value;
    PlacingKeepsValid(sites, st1, id, site, row.registration);
    EnrollingKeepsValid(sites, st2, id, site, row.registration, status);
  }

  lemma PlacingKeepsValid(sites: Sites, st: State, id: nat, site: int, start: int)
    requires site in sites && Valid(sites, st) && id < |st.cleaners| && Placed(sites, st, id, site, start).Ok?
    ensures Valid(sites, Placed(sites, st, id, site, start).value)
  {
    var st' := Placed(sites, st, id, site, start).value;
    if st' != st {
      var rows := st'.assignments;
      forall i, j | 0 <= i < j < |rows|
        ensures !BothOccupy(rows[i], rows[j])
      {
        if j < |st.assignments| {
          assert rows[i] == st.assignments[i] && rows[j] == st.assignments[j];
        } else {
          assert rows[i] == st.assignments[i];
        }
      }
    }
  }

  lemma EnrollingKeepsValid(sites: Sites, st: State, id: nat, site: int, start: int, status: CleanerStatus)
    requires Valid(sites, st) && id < |st.cleaners| && Enrolled(st, id, site, start, status).Ok?
    ensures Valid(sites, Enrolled(st, id, site, start, status).value)
  {
  }

  // ---- Whole imports ----

  lemma EachStep(sites: Sites, st: State, rows: seq<CleanRow>, status: CleanerStatus, site: int)
    requires site in sites && rows != [] && ImportEach(sites, st, rows, status, site).Ok?
    ensures var before := ImportEach(sites, st, rows[..|rows| - 1], status, site);
            && before.Ok?
            && ImportRow(sites, before.value.st, rows[|rows| - 1], status, site)
               == Ok(ImportEach(sites, st, rows, status, site).value.st)
  {
  }

  lemma {:induction false} EachKeepsValid(sites: Sites, st: State, rows: seq<CleanRow>, status: CleanerStatus,
                                          site: int)
    requires site in sites && Valid(sites, st) && ImportEach(sites, st, rows, status, site).Ok?
    ensures Valid(sites, ImportEach(sites, st, rows, status, site).value.st)
  {
    if rows != [] {
      EachStep(sites, st, rows, status, site);
      EachKeepsValid(sites, st, rows[..|rows| - 1], status, site);
      var before := ImportEach(sites, st, rows[..|rows| - 1], status, site).value.st;
      RowKeepsValid(sites, before, rows[|rows| - 1], status, site);
    }
  }

  lemma {:induction false} EachSettles(sites: Sites, st: State, rows: seq<CleanRow>, status: CleanerStatus, site: int)
    requires site in sites && ImportEach(sites, st, rows, status, site).Ok?
    ensures var st' := ImportEach(sites, st, rows, status, site).value.st;
            Grows(st, st') && forall i :: 0 <= i < |rows| ==> Settled(st', CleanKey(rows[i]), status, site)
  {
    if rows != [] {
      EachStep(sites, st, rows, status, site);
      var init := rows[..|rows| - 1];
      EachSettles(sites, st, init, status, site);
      var before := ImportEach(sites, st, init, status, site).value.st;
      OneMoreSettles(sites, st, before, rows, status, site);
    }
  }

  lemma OneMoreSettles(sites: Sites, st: State, before: State, rows: seq<CleanRow>, status: CleanerStatus, site: int)
    requires site in sites && Grows(st, before) && rows != []
    requires ImportRow(sites, before, rows[|rows| - 1], status, site).Ok?
    requires var init := rows[..|rows| - 1];
             forall i :: 0 <= i < |init| ==> Settled(before, CleanKey(init[i]), status, site)
    ensures var after := ImportRow(sites, before, rows[|rows| - 1], status, site).value;
            Grows(st, after) && forall i :: 0 <= i < |rows| ==> Settled(after, CleanKey(rows[i]), status, site)
  {
    var init, row := rows[..|rows| - 1], rows[|rows| - 1];
    var after := ImportRow(sites, before, row, status, site).value;
    RowSettles(sites, before, row, status, site);
    GrowsOn(st, before, after);
    SettledExtends(before, after, init, row, status, site);
    assert rows == init + [row];
  }

  lemma SettledExtends(before: State, after: State, init: seq<CleanRow>, row: CleanRow, status: CleanerStatus,
                       site: int)
    requires Grows(before, after) && Settled(after, CleanKey(row), status, site)
    requires forall i :: 0 <= i < |init| ==> Settled(before, CleanKey(init[i]), status, site)
    ensures forall i :: 0 <= i < |init + [row]| ==> Settled(after, CleanKey((init + [row])[i]), status, site)
  {
    forall i | 0 <= i < |init| ensures Settled(after, CleanKey(init[i]), status, site) {
      GrowsKeepsSettled(before, after, CleanKey(init[i]), status, site);
    }
  }

  lemma GrowsOn(a: State, b: State, c: State)
    requires Grows(a, b) && Grows(b, c)
    ensures Grows(a, c)
  {
  }

  lemma {:induction false} EachCounts(sites: Sites, st: State, rows: seq<CleanRow>, status: CleanerStatus, site: int)
    requires site in sites && ImportEach(sites, st, rows, status, site).Ok?
    ensures var r := ImportEach(sites, st, rows, status, site).value;
            && |r.created| + |r.matched| == |rows|
            && |r.st.cleaners| == |st.cleaners| + |r.created|
            && (forall k :: 0 <= k < |r.created| ==> r.created[k] == |st.cleaners| + k)
  {
    if rows != [] {
      var init, row := rows[..|rows| - 1], rows[|rows| - 1];
      EachCounts(sites, st, init, status, site);
      RowSettles(sites, ImportEach(sites, st, init, status, site).value.st, row, status, site);
    }
  }

  lemma SamePersonLater(before: State, after: State, c: nat, key: Key)
    requires Grows(before, after) && c < |before.cleaners| && IsPerson(before.cleaners[c], key)
    ensures IsPerson(after.cleaners[c], key)
  {
  }

  /** New people carry the identities of imported rows. */
  lemma {:induction false} NewPeopleAreRows(sites: Sites, st: State, rows: seq<CleanRow>, status: CleanerStatus,
                                            site: int, c: nat) returns (i: nat)
    requires site in sites && ImportEach(sites, st, rows, status, site).Ok?
    requires |st.cleaners| <= c < |ImportEach(sites, st, rows, status, site).value.st.cleaners|
    ensures i < |rows|
    ensures IsPerson(ImportEach(sites, st, rows, status, site).value.st.cleaners[c], CleanKey(rows[i]))
  {
    EachStep(sites, st, rows, status, site);
    var init, row := rows[..|rows| - 1], rows[|rows| - 1];
    var before := ImportEach(sites, st, init, status, site).value.st;
    RowSettles(sites, before, row, status, site);
    if c < |before.cleaners| {
      i := NewPeopleAreRows(sites, st, init, status, site, c);
      SamePersonLater(before, ImportRow(sites, before, row, status, site).value, c, CleanKey(rows[i]));
    } else {
      NewPersonIsRow(sites, before, row, status, site);
      i := |rows| - 1;
    }
  }

  /** With distinct identities only people who were there before are matched. */
  lemma {:induction false} MatchedWereThere(sites: Sites, st: State, rows: seq<CleanRow>, status: CleanerStatus,
                                            site: int)
    requires site in sites && ImportEach(sites, st, rows, status, site).Ok?
    requires forall i, j :: 0 <= i < j < |rows| ==> CleanKey(rows[i]) != CleanKey(rows[j])
    ensures var matched := ImportEach(sites, st, rows, status, site).value.matched;
            forall k :: 0 <= k < |matched| ==> matched[k] < |st.cleaners|
  {
    if rows != [] {
      EachStep(sites, st, rows, status, site);
      var init, row := rows[..|rows| - 1], rows[|rows| - 1];
      MatchedWereThere(sites, st, init, status, site);
      var before := ImportEach(sites, st, init, status, site).value.st;
      forall c | |st.cleaners| <= c < |before.cleaners| ensures !IsPerson(before.cleaners[c], CleanKey(row)) {
        var i := NewPeopleAreRows(sites, st, init, status, site, c);
        assert CleanKey(rows[i]) != CleanKey(rows[|init|]);
      }
    }
  }

  lemma NewPersonIsRow(sites: Sites, st: State, row: CleanRow, status: CleanerStatus, site: int)
    requires site in sites && ImportRow(sites, st, row, status, site).Ok?
    ensures var st' := ImportRow(sites, st, row, status, site).value;
            |st'.cleaners| <= |st.cleaners| + 1
            && (|st'.cleaners| > |st.cleaners| ==> IsPerson(st'.cleaners[|st.cleaners|], CleanKey(row)))
  {
  }

  lemma {:induction false} EachAgain(sites: Sites, st: State, rows: seq<CleanRow>, status: CleanerStatus, site: int)
    requires site in sites && Valid(sites, st)
    requires forall i :: 0 <= i < |rows| ==> Settled(st, CleanKey(rows[i]), status, site)
    ensures var r := ImportEach(sites, st, rows, status, site);
            r.Ok? && r.value.st == st && r.value.created == []
  {
    if rows != [] {
      var init, row := rows[..|rows| - 1], rows[|rows| - 1];
      assert forall i :: 0 <= i < |init| ==> init[i] == rows[i];
      EachAgain(sites, st, init, status, site);
      SettledRowIsDone(sites, st, row, status, site);
    }
  }

  // ---- Which imports commit ----

  /** A row's person can be placed FULL_TIME at the site and, if need be, enrolled. */
  predicate CanJoin(sites: Sites, st: State, row: CleanRow, status: CleanerStatus, site: int)
    requires site in sites
  {
    match FindPerson(st.cleaners, CleanKey(row), |st.cleaners|)
    case None => sites[site].mode in {FullTimeOnly, FullTimeAndShift}
    case Some(id) => CanPlace(sites, st, id, site) && CanEnrol(st, id, status)
  }

  /** Already placed there, or not inactive, at a site with full-time work, nor active with a suspended row there. */
  predicate CanPlace(sites: Sites, st: State, id: nat, site: int)
    requires id < |st.cleaners| && site in sites
  {
    || HasOpenThere(st.assignments, id, site)
    || (st.cleaners[id].status != Inactive && sites[site].mode in {FullTimeOnly, FullTimeAndShift}
        && !BlockedAt(st, id, site))
  }

  predicate HasOpenThere(rows: seq<Assignment>, id: nat, site: int) {
    exists i :: 0 <= i < |rows| && rows[i].cleaner == id && rows[i].site == site
                && rows[i].status in {Active, DraftAssignment}
  }

  predicate HasRunning(programs: seq<Program>, id: nat) {
    exists i :: 0 <= i < |programs| && programs[i].cleaner == id && programs[i].status in {InTraining, Extended}
  }

  lemma OpenAndRunning(st: State, id: nat, site: int)
    ensures OpenAt(st.assignments, id, site) <==> HasOpenThere(st.assignments, id, site)
    ensures Training(st.programs, id) <==> HasRunning(st.programs, id)
  {
  }

  predicate CanEnrol(st: State, id: nat, status: CleanerStatus)
    requires id < |st.cleaners|
  {
    status == Trainee && st.cleaners[id].status == ActiveCleaner ==> HasRunning(st.programs, id)
  }

  lemma PlacedWhen(sites: Sites, st: State, id: nat, site: int, start: int)
    requires id < |st.cleaners| && site in sites
    ensures Placed(sites, st, id, site, start).Ok? <==> CanPlace(sites, st, id, site)
    ensures Placed(sites, st, id, site, start).Ok? ==>
              Placed(sites, st, id, site, start).value.programs == st.programs
  {
    var rows := st.assignments;
    OpenAndRunning(st, id, site);
    if !OpenAt(rows, id, site) {
      forall i | 0 <= i < |rows|
        ensures Occupies(rows[i], id, site)
           <==> rows[i].cleaner == id && rows[i].site == site && rows[i].status == Suspended
      {
        assert !(rows[i].cleaner == id && rows[i].site == site && Open(rows[i]));
      }
    }
  }

  lemma RowImportsWhen(sites: Sites, st: State, row: CleanRow, status: CleanerStatus, site: int)
    requires site in sites && Valid(sites, st) && (status == Trainee || status == ActiveCleaner)
    ensures ImportRow(sites, st, row, status, site).Ok? <==> CanJoin(sites, st, row, status, site)
  {
    var (st1, id) := WithPerson(st, row, status);
    PlacedWhen(sites, st1, id, site, row.registration);
    OpenAndRunning(st1, id, site);
    if FindPerson(st.cleaners, CleanKey(row), |st.cleaners|).None? {
      assert forall i :: 0 <= i < |st.assignments| ==> RowFits(sites, st.cleaners, st.assignments[i]);
      NewPersonFits(sites, st1, id, site, status);
    }
  }

  lemma NewPersonFits(sites: Sites, st: State, id: nat, site: int, status: CleanerStatus)
    requires id < |st.cleaners| && site in sites && st.cleaners[id].status == status && status != Inactive
    requires forall i :: 0 <= i < |st.assignments| ==> st.assignments[i].cleaner != id
    ensures CanPlace(sites, st, id, site) <==> sites[site].mode in {FullTimeOnly, FullTimeAndShift}
  {
  }

  /** Importing one person's row changes nothing for anyone else. */
  lemma OthersStillJoin(sites: Sites, st: State, row: CleanRow, other: CleanRow, status: CleanerStatus, site: int)
    requires site in sites && Valid(sites, st) && ImportRow(sites, st, row, status, site).Ok?
    requires CleanKey(other) != CleanKey(row)
    ensures CanJoin(sites, ImportRow(sites, st, row, status, site).value, other, status, site)
       <==> CanJoin(sites, st, other, status, site)
  {
    var st' := ImportRow(sites, st, row, status, site).value;
    var id := WithPerson(st, row, status).1;
    RowTouchesOne(sites, st, row, status, site);
    OtherFound(st.cleaners, st'.cleaners, id, CleanKey(other));
    var found := FindPerson(st.cleaners, CleanKey(other), |st.cleaners|);
    if found.Some? {
      SameForOther(sites, st, st', id, found.value, status, site);
    }
  }

  /** The one person an imported row concerns; everything added is theirs. */
  ghost predicate TouchesOnly(st: State, st': State, id: nat) {
    && |st.cleaners| <= |st'.cleaners| <= |st.cleaners| + 1 && id < |st'.cleaners|
    && (|st'.cleaners| > |st.cleaners| ==> id == |st.cleaners|)
    && (forall i :: 0 <= i < |st.cleaners| && i != id ==> st'.cleaners[i] == st.cleaners[i])
    && st.assignments <= st'.assignments
    && (forall i :: |st.assignments| <= i < |st'.assignments| ==> st'.assignments[i].cleaner == id)
    && st.programs <= st'.programs
    && (forall i :: |st.programs| <= i < |st'.programs| ==> st'.programs[i].cleaner == id)
  }

  lemma RowTouchesOne(sites: Sites, st: State, row: CleanRow, status: CleanerStatus, site: int)
    requires site in sites && ImportRow(sites, st, row, status, site).Ok?
    ensures var st', id := ImportRow(sites, st, row, status, site).value, WithPerson(st, row, status).1;
            TouchesOnly(st, st', id) && IsPerson(st'.cleaners[id], CleanKey(row))
            && (id < |st.cleaners| ==> IsPerson(st.cleaners[id], CleanKey(row)))
  {
  }

  lemma OtherFound(before: seq<Cleaner>, after: seq<Cleaner>, id: nat, key: Key)
    requires |before| <= |after| && id < |after| && !IsPerson(after[id], key)
    requires id < |before| ==> !IsPerson(before[id], key)
    requires |after| <= |before| + 1 && (|after| > |before| ==> id == |before|)
    requires forall i :: 0 <= i < |before| && i != id ==> after[i] == before[i]
    ensures FindPerson(after, key, |after|) == FindPerson(before, key, |before|)
    ensures var found := FindPerson(before, key, |before|); found.Some? ==> found.value != id
  {
    FoundFirst(before, key, |before|);
    FoundFirst(after, key, |after|);
    var b, a := FindPerson(before, key, |before|), FindPerson(after, key, |after|);
    if b.Some? {
      assert b.value != id && after[b.value] == before[b.value];
    }
    if a.Some? {
      assert a.value != id && a.value < |before| && before[a.value] == after[a.value];
    }
  }

  lemma {:induction false} FoundFirst(cleaners: seq<Cleaner>, key: Key, n: nat)
    requires n <= |cleaners|
    ensures var found := FindPerson(cleaners, key, n);
            found.Some? ==> forall i :: 0 <= i < found.value ==> !IsPerson(cleaners[i], key)
  {
    if n > 0 {
      FoundFirst(cleaners, key, n - 1);
    }
  }

  lemma SameForOther(sites: Sites, st: State, st': State, id: nat, other: nat, status: CleanerStatus, site: int)
    requires site in sites && TouchesOnly(st, st', id) && other < |st.cleaners| && other != id
    ensures CanPlace(sites, st', other, site) && CanEnrol(st', other, status)
       <==> CanPlace(sites, st, other, site) && CanEnrol(st, other, status)
  {
    assert forall i :: 0 <= i < |st.assignments| ==> st'.assignments[i] == st.assignments[i];
    assert forall i :: 0 <= i < |st.programs| ==> st'.programs[i] == st.programs[i];
    assert HasOpenThere(st'.assignments, other, site) <==> HasOpenThere(st.assignments, other, site);
    assert BlockedAt(st', other, site) <==> BlockedAt(st, other, site);
    assert HasRunning(st'.programs, other) <==> HasRunning(st.programs, other);
  }

  // ---- What an import writes, column by column ----

  function StatusOf(person: Cleaner): AssignmentStatus {
    if person.status == ActiveCleaner then Active else DraftAssignment
  }

  /** One imported row: its person found or created, placed FULL_TIME if not yet there, enrolled if a trainee. */
  ghost predicate RowImported(st: State, row: CleanRow, status: CleanerStatus, site: int, st': State, id: nat) {
    && id < |st'.cleaners| && IsPerson(st'.cleaners[id], CleanKey(row))
    && (if id < |st.cleaners| then |st'.cleaners| == |st.cleaners| else id == |st.cleaners| == |st'.cleaners| - 1)
    && (forall c :: 0 <= c < |st.cleaners| && c != id ==> st'.cleaners[c] == st.cleaners[c])
    && var known := id < |st.cleaners|;
       var person := if known then st.cleaners[id] else Cleaner(row.idType, Upper(row.idNumber), status);
       var enrols := status == Trainee && !HasRunning(st.programs, id);
       && st'.cleaners[id] == (if enrols then person.(status := Trainee) else person)
       && st'.assignments
          == st.assignments
             + (if HasOpenThere(st.assignments, id, site) then []
                else [Assignment(id, site, FullTime, StatusOf(person), row.registration, None)])
       && st'.programs
          == st.programs
             + if enrols then [Program(id, site, InTraining, row.registration, row.registration + 90)] else []
  }

  lemma RowImportAnswers(sites: Sites, st: State, row: CleanRow, status: CleanerStatus, site: int)
    requires site in sites && ImportRow(sites, st, row, status, site).Ok?
    ensures RowImported(st, row, status, site, ImportRow(sites, st, row, status, site).value,
                        WithPerson(st, row, status).1)
  {
    var (st1, id) := WithPerson(st, row, status);
    OpenAndRunning(st1, id, site);
    AssignAnswers(sites, st1, id, site, FullTime, row.registration, None);
  }

  /** An assignment that an import adds belongs to the person of one of its rows. */
  lemma {:induction false} NewAssignmentIsRows(sites: Sites, st: State, rows: seq<CleanRow>, status: CleanerStatus,
                                               site: int, k: nat) returns (n: nat)
    requires site in sites && Valid(sites, st) && KeysApart(rows) && ImportEach(sites, st, rows, status, site).Ok?
    requires |st.assignments| <= k < |ImportEach(sites, st, rows, status, site).value.st.assignments|
    ensures n < |rows|
    ensures var after := ImportEach(sites, st, rows, status, site).value.st;
            AddedFor(after, after.assignments[k], rows[n], site)
  {
    EachStep(sites, st, rows, status, site);
    var init, row := rows[..|rows| - 1], rows[|rows| - 1];
    var before := ImportEach(sites, st, init, status, site).value.st;
    var after, id := ImportRow(sites, before, row, status, site).value, WithPerson(before, row, status).1;
    EachKeepsValid(sites, st, init, status, site);
    RowImportAnswers(sites, before, row, status, site);
    if k < |before.assignments| {
      n := NewAssignmentIsRows(sites, st, init, status, site, k);
      assert CleanKey(rows[n]) != CleanKey(row);
      StillAddedFor(before, after, id, CleanKey(row), before.assignments[k], rows[n], site);
    } else {
      n := |init|;
    }
  }

  predicate AddedFor(st: State, a: Assignment, row: CleanRow, site: int) {
    && a.cleaner < |st.cleaners| && IsPerson(st.cleaners[a.cleaner], CleanKey(row))
    && a == Assignment(a.cleaner, site, FullTime, StatusOf(st.cleaners[a.cleaner]), row.registration, None)
  }

  lemma StillAddedFor(before: State, after: State, id: nat, key: Key, a: Assignment, row: CleanRow, site: int)
    requires AddedFor(before, a, row, site) && CleanKey(row) != key
    requires id < |after.cleaners| && IsPerson(after.cleaners[id], key) && |before.cleaners| <= |after.cleaners|
    requires id < |before.cleaners| ==> IsPerson(before.cleaners[id], key)
    requires forall c :: 0 <= c < |before.cleaners| && c != id ==> after.cleaners[c] == before.cleaners[c]
    ensures AddedFor(after, a, row, site)
  {
  }

  predicate KeysApart(rows: seq<CleanRow>) {
    forall i, j :: 0 <= i < j < |rows| ==> CleanKey(rows[i]) != CleanKey(rows[j])
  }

  lemma EachGoesOn(sites: Sites, st: State, rows: seq<CleanRow>, status: CleanerStatus, site: int)
    requires site in sites && rows != []
    ensures var before := ImportEach(sites, st, rows[..|rows| - 1], status, site);
            ImportEach(sites, st, rows, status, site).Ok?
            <==> before.Ok? && ImportRow(sites, before.value.st, rows[|rows| - 1], status, site).Ok?
  {
  }

  lemma AllJoinSplits(sites: Sites, st: State, rows: seq<CleanRow>, status: CleanerStatus, site: int)
    requires site in sites && rows != []
    ensures var init := rows[..|rows| - 1];
            (forall i :: 0 <= i < |rows| ==> CanJoin(sites, st, rows[i], status, site))
            <==> (forall i :: 0 <= i < |init| ==> CanJoin(sites, st, init[i], status, site))
                 && CanJoin(sites, st, rows[|rows| - 1], status, site)
  {
    var init := rows[..|rows| - 1];
    assert forall i :: 0 <= i < |init| ==> init[i] == rows[i];
  }

  /** Rows of different people import independently: all of them do exactly when each could by itself. */
  lemma {:induction false} EachImportsWhen(sites: Sites, st: State, rows: seq<CleanRow>, status: CleanerStatus,
                                           site: int)
    requires site in sites && Valid(sites, st) && KeysApart(rows) && (status == Trainee || status == ActiveCleaner)
    ensures ImportEach(sites, st, rows, status, site).Ok?
       <==> forall i :: 0 <= i < |rows| ==> CanJoin(sites, st, rows[i], status, site)
  {
    if rows != [] {
      var init, row := rows[..|rows| - 1], rows[|rows| - 1];
      EachImportsWhen(sites, st, init, status, site);
      EachGoesOn(sites, st, rows, status, site);
      AllJoinSplits(sites, st, rows, status, site);
      if ImportEach(sites, st, init, status, site).Ok? {
        EachKeepsValid(sites, st, init, status, site);
        OthersJoinAfterAll(sites, st, init, row, status, site);
        RowImportsWhen(sites, ImportEach(sites, st, init, status, site).value.st, row, status, site);
      }
    }
  }

  lemma {:induction false} OthersJoinAfterAll(sites: Sites, st: State, rows: seq<CleanRow>, other: CleanRow,
                                              status: CleanerStatus, site: int)
    requires site in sites && Valid(sites, st) && ImportEach(sites, st, rows, status, site).Ok?
    requires forall i :: 0 <= i < |rows| ==> CleanKey(rows[i]) != CleanKey(other)
    ensures CanJoin(sites, ImportEach(sites, st, rows, status, site).value.st, other, status, site)
       <==> CanJoin(sites, st, other, status, site)
  {
    if rows != [] {
      var init, row := rows[..|rows| - 1], rows[|rows| - 1];
      EachStep(sites, st, rows, status, site);
      OthersJoinAfterAll(sites, st, init, other, status, site);
      EachKeepsValid(sites, st, init, status, site);
      OthersStillJoin(sites, ImportEach(sites, st, init, status, site).value.st, row, other, status, site);
    }
  }

  /**
    An import commits exactly when its configuration is allowed, no row is rejected, and each row's person could be
    placed and enrolled in the tables as they were before it; one who could not stops all.
  */
  lemma ImportCommitsWhenAllCanJoin(sites: Sites, st: State, rows: seq<Row>, status: CleanerStatus, site: int)
    requires site in sites && Valid(sites, st)
    ensures Import(sites, st, rows, status, site).Committed?
       <==> && (status == Trainee || status == ActiveCleaner) && sites[site].isActive
            && PreviewOf(rows).rejected == []
            && forall i :: 0 <= i < |PreviewOf(rows).accepted| ==>
                 CanJoin(sites, st, PreviewOf(rows).accepted[i], status, site)
  {
    PreviewPartitions(rows);
    if status == Trainee || status == ActiveCleaner {
      EachImportsWhen(sites, st, PreviewOf(rows).accepted, status, site);
    }
  }

  /** An import writes only when no row was rejected; whatever it answers, the table rules hold after it. */
  lemma ImportKeepsValid(sites: Sites, st: State, rows: seq<Row>, status: CleanerStatus, site: int)
    requires site in sites && Valid(sites, st)
    ensures var answer := Import(sites, st, rows, status, site);
            Valid(sites, After(st, answer)) && (answer.Committed? ==> PreviewOf(rows).rejected == [])
  {
    if Import(sites, st, rows, status, site).Committed? {
      EachKeepsValid(sites, st, PreviewOf(rows).accepted, status, site);
    }
  }

  /**
    After a committed import every row was either created or matched, the created people are exactly the new ones
    and the matched were there before, and every row's person has an open assignment at the site (and, for trainees,
    a running programme).
  */
  lemma ImportSettlesEveryRow(sites: Sites, st: State, rows: seq<Row>, status: CleanerStatus, site: int)
    requires site in sites && Valid(sites, st) && Import(sites, st, rows, status, site).Committed?
    ensures var r := Import(sites, st, rows, status, site).imported;
            && |r.created| + |r.matched| == |rows|
            && |r.st.cleaners| == |st.cleaners| + |r.created|
            && (forall k :: 0 <= k < |r.created| ==> r.created[k] == |st.cleaners| + k)
            && (forall k :: 0 <= k < |r.matched| ==> r.matched[k] < |st.cleaners|)
            && Grows(st, r.st)
            && |PreviewOf(rows).accepted| == |rows|
            && (forall i :: 0 <= i < |rows| ==> Settled(r.st, CleanKey(PreviewOf(rows).accepted[i]), status, site))
  {
    PreviewPartitions(rows);
    EachSettles(sites, st, PreviewOf(rows).accepted, status, site);
    EachCounts(sites, st, PreviewOf(rows).accepted, status, site);
    MatchedWereThere(sites, st, PreviewOf(rows).accepted, status, site);
  }

  /** Importing the same file again changes nothing: no person, no assignment, no programme. */
  lemma ReimportChangesNothing(sites: Sites, st: State, rows: seq<Row>, status: CleanerStatus, site: int)
    requires site in sites && Valid(sites, st) && Import(sites, st, rows, status, site).Committed?
    ensures var st' := Import(sites, st, rows, status, site).imported.st;
            var again := Import(sites, st', rows, status, site);
            again.Committed? && again.imported.st == st' && again.imported.created == []
  {
    EachSettles(sites, st, PreviewOf(rows).accepted, status, site);
    EachKeepsValid(sites, st, PreviewOf(rows).accepted, status, site);
    EachAgain(sites, Import(sites, st, rows, status, site).imported.st, PreviewOf(rows).accepted, status, site);
  }

  /** What a committed import adds to the assignments: FULL_TIME from the registration date, for the rows' people. */
  lemma ImportAddsForRows(sites: Sites, st: State, rows: seq<Row>, status: CleanerStatus, site: int)
    requires site in sites && Valid(sites, st)
    ensures var answer := Import(sites, st, rows, status, site);
            answer.Committed? ==>
              forall k :: |st.assignments| <= k < |answer.imported.st.assignments| ==>
                exists n :: 0 <= n < |PreviewOf(rows).accepted|
                            && AddedFor(answer.imported.st, answer.imported.st.assignments[k],
                                        PreviewOf(rows).accepted[n], site)
  {
    var answer, accepted := Import(sites, st, rows, status, site), PreviewOf(rows).accepted;
    PreviewPartitions(rows);
    if answer.Committed? {
      forall k | |st.assignments| <= k < |answer.imported.st.assignments|
        ensures exists n :: 0 <= n < |accepted|
                            && AddedFor(answer.imported.st, answer.imported.st.assignments[k], accepted[n], site)
      {
        var n := NewAssignmentIsRows(sites, st, accepted, status, site, k);
      }
    }
  }

  // ---- Runs of both services ----

  datatype Call =
    | TransferCall(ids: seq<nat>, site: int, date: int, reason: string)
    | ImportCall(rows: seq<Row>, status: CleanerStatus, site: int)

  function Apply(sites: Sites, st: State, call: Call): State {
    if call.site !in sites then st
    else match call
      case TransferCall(ids, site, date, reason) =>
        (match Transfer(sites, st, ids, site, date, reason) case Ok(st') => st' case Err(_) => st)
      case ImportCall(rows, status, site) => After(st, Import(sites, st, rows, status, site))
  }

  function Run(sites: Sites, calls: seq<Call>): State {
    if calls == [] then State([], [], []) else Apply(sites, Run(sites, calls[..|calls| - 1]), calls[|calls| - 1])
  }

  /**
    Over every run of imports and transfers: assignments fit their site's work mode, only active cleaners hold ACTIVE
    ones, nobody has two active or suspended ones at a site or two running programmes, and identities are unique.
  */
  lemma {:induction false} RunKeepsValid(sites: Sites, calls: seq<Call>)
    ensures Valid(sites, Run(sites, calls))
  {
    if calls != [] {
      var init, call := calls[..|calls| - 1], calls[|calls| - 1];
      RunKeepsValid(sites, init);
      if call.site in sites {
        match call
        case TransferCall(ids, site, date, reason) =>
          TransferKeepsValid(sites, Run(sites, init), ids, site, date, reason);
        case ImportCall(rows, status, site) =>
          ImportKeepsValid(sites, Run(sites, init), rows, status, site);
      }
    }
  }

  /**
    It happens: a person imported with a later registration date, then transferred, keeps an assignment that ends
    before it starts.
  */
  lemma TransferEndsBeforeStart(sites: Sites, row: Row, a: int, b: int, date: int, reason: string)
    requires WellFormed(row) && date < row.dates["registration_date"] && !Blank(reason)
    requires a in sites && b in sites && a != b && sites[a].isActive && sites[b].isActive
    requires Admits(sites[a].mode, FullTime)
    ensures var calls := [ImportCall([row], ActiveCleaner, a), TransferCall([0], b, date, reason)];
            var rows := Run(sites, calls).assignments;
            |rows| == 2 && rows[0].cleaner == 0 && rows[0].end == Some(date) && date < rows[0].start
  {
    var c1, c2 := ImportCall([row], ActiveCleaner, a), TransferCall([0], b, date, reason);
    RunOneMore(sites, [], c1);
    RunOneMore(sites, [c1], c2);
    assert [] + [c1] == [c1] && [c1] + [c2] == [c1, c2];
    FirstImport(sites, row, a);
    OneMoves(sites, Run(sites, [c1]), a, b, date, reason);
  }

  lemma RunOneMore(sites: Sites, calls: seq<Call>, call: Call)
    ensures Run(sites, calls + [call]) == Apply(sites, Run(sites, calls), call)
  {
    assert (calls + [call])[..|calls|] == calls;
  }

  lemma FirstImport(sites: Sites, row: Row, site: int)
    requires WellFormed(row) && site in sites && sites[site].isActive && Admits(sites[site].mode, FullTime)
    ensures var st := Apply(sites, State([], [], []), ImportCall([row], ActiveCleaner, site));
            && |st.cleaners| == 1 && st.cleaners[0].status == ActiveCleaner
            && st.assignments == [Assignment(0, site, FullTime, Active, row.dates["registration_date"], None)]
            && st.programs == []
  {
    var st := State([], [], []);
    assert [row][..0] == [] && Seen([]) == {};
    NoErrors(row, {});
    assert WellFormed(row) && KeyOf(row) !in {} && Errors(row, {}) == [];
    assert PreviewOf([row]) == Preview([Cleaned(row)], []);
    OneRowImport(sites, st, Cleaned(row), site);
  }

  lemma OneRowImport(sites: Sites, st: State, row: CleanRow, site: int)
    requires st == State([], [], []) && site in sites && Admits(sites[site].mode, FullTime)
    ensures var r := ImportEach(sites, st, [row], ActiveCleaner, site);
            && r.Ok? && |r.value.st.cleaners| == 1 && r.value.st.cleaners[0].status == ActiveCleaner
            && r.value.st.assignments == [Assignment(0, site, FullTime, Active, row.registration, None)]
            && r.value.st.programs == []
  {
    assert [row][..0] == [];
    assert ImportEach(sites, st, [row][..0], ActiveCleaner, site) == Ok(Imported(st, [], []));
    var st1 := WithPerson(st, row, ActiveCleaner).0;
    assert st1 == State([Cleaner(row.idType, Upper(row.idNumber), ActiveCleaner)], [], []);
    assert !OpenAt(st1.assignments, 0, site);
  }

  lemma OneMoves(sites: Sites, st: State, a: int, b: int, date: int, reason: string)
    requires a in sites && b in sites && a != b && sites[b].isActive && !Blank(reason)
    requires |st.cleaners| == 1 && st.cleaners[0].status == ActiveCleaner
    requires |st.assignments| == 1 && st.programs == []
    requires var row := st.assignments[0];
             row.cleaner == 0 && row.site == a && row.status == Active && row.end.None? && date < row.start
    ensures var rows := Apply(sites, st, TransferCall([0], b, date, reason)).assignments;
            |rows| == 2 && rows[0].cleaner == 0 && rows[0].end == Some(date) && date < rows[0].start
  {
    TransferOfOne(sites, st, [0], a, b, date, reason);
  }

  lemma TransferOfOne(sites: Sites, st: State, ids: seq<nat>, a: int, b: int, date: int, reason: string)
    requires |ids| == 1 && ids[0] < |st.cleaners| && st.cleaners[ids[0]].status == ActiveCleaner
    requires b in sites && sites[b].isActive && !Blank(reason) && a != b
    requires |st.assignments| == 1
    requires var row := st.assignments[0];
             row.cleaner == ids[0] && row.site == a && row.status == Active && row.end.None?
    ensures var r := Transfer(sites, st, ids, b, date, reason);
            && r.Ok? && |r.value.assignments| == 2
            && r.value.assignments[0] == st.assignments[0].(status := Ended, end := Some(date))
  {
    OnlyRowMoves(st, ids[0], b);
    OneIsAccepted(sites, st, ids, b, date, reason);
    assert Ids(ids) == {ids[0]};
    TransferKeepsHistory(sites, st, ids, b, date, reason, 0);
  }

  lemma OneIsAccepted(sites: Sites, st: State, ids: seq<nat>, site: int, date: int, reason: string)
    requires |ids| == 1 && CanMove(st, ids[0], site)
    requires site in sites && sites[site].isActive && !Blank(reason)
    ensures Transfer(sites, st, ids, site, date, reason).Ok?
    ensures 0 < |st.assignments| ==> |Transfer(sites, st, ids, site, date, reason).value.assignments| > 0
  {
    assert (set id | id in ids) == {ids[0]};
    BlankMeansNoText(reason);
    TransferSucceedsWhenAllCanMove(sites, st, ids, site, date, reason);
    TransferEffect(sites, st, ids, site, date, reason);
  }

  lemma OnlyRowMoves(st: State, id: nat, site: int)
    requires id < |st.cleaners| && st.cleaners[id].status != Inactive
    requires |st.assignments| == 1 && st.assignments[0].cleaner == id && Open(st.assignments[0])
    requires st.assignments[0].site != site
    ensures CanMove(st, id, site)
  {
  }

  // ---- The service ----

  class Importer {
    const registry: Registry

    constructor (registry: Registry)
      ensures this.registry == registry
    {
      this.registry := registry;
    }

    static method CheckRequired(row: Row) returns (errors: seq<string>)
      ensures errors == MissingErrors(row, |REQUIRED|)
    {
      errors := [];
      for i := 0 to |REQUIRED|
        invariant errors == MissingErrors(row, i)
      {
        if Cell(row, REQUIRED[i]) == "" {
          errors := errors + [REQUIRED[i] + " is required"];
        }
      }
    }

    static method CheckChoices(row: Row, seen: set<Key>) returns (errors: seq<string>, seen': set<Key>)
      ensures errors == ChoiceErrors(row, seen) && seen' == Remember(row, seen)
    {
      errors := [];
      if Cell(row, "id_type") != "" && Cell(row, "id_type") !in ID_TYPES {
        errors := errors + ["id_type is not an allowed value"];
      }
      if Cell(row, "gender") != "" && Cell(row, "gender") !in GENDERS {
        errors := errors + ["gender is not an allowed value"];
      }
      seen' := seen;
      if Identified(row) {
        if KeyOf(row) in seen {
          errors := errors + ["duplicate identity appears more than once in this workbook"];
        }
        seen' := seen + {KeyOf(row)};
      }
    }

    static method CheckDates(row: Row) returns (errors: seq<string>)
      ensures errors == DateErrors(row, |DATE_FIELDS|)
    {
      errors := [];
      for i := 0 to |DATE_FIELDS|
        invariant errors == DateErrors(row, i)
      {
        if Cell(row, DATE_FIELDS[i]) != "" && DATE_FIELDS[i] !in row.dates {
          errors := errors + [DATE_FIELDS[i] + " must be a valid YYYY-MM-DD date."];
        }
      }
    }

    static method ValidateRow(row: Row, seen: set<Key>)
      returns (clean: Option<CleanRow>, errors: seq<string>, seen': set<Key>)
      ensures errors == Errors(row, seen) && seen' == Remember(row, seen)
      ensures clean.Some? <==> WellFormed(row) && KeyOf(row) !in seen
      ensures clean.Some? ==> clean.value == Cleaned(row)
    {
      errors := CheckRequired(row);
      var more;
      more, seen' := CheckChoices(row, seen);
      errors := errors + more;
      more := CheckDates(row);
      errors := errors + more;
      NoErrors(row, seen);
      clean := if errors == [] then Some(Cleaned(row)) else None;
    }

    static method PreviewRows(rows: seq<Row>) returns (p: Preview)
      ensures p == PreviewOf(rows)
      ensures |p.accepted| + |p.rejected| == |rows|
    {
      var accepted, rejected, seen := [], [], {};
      for i := 0 to |rows|
        invariant seen == Seen(rows[..i])
        invariant PreviewOf(rows[..i]) == Preview(accepted, rejected)
      {
        assert rows[..i + 1][..i] == rows[..i];
        var clean, errors;
        clean, errors, seen := ValidateRow(rows[i], seen);
        NoErrors(rows[i], Seen(rows[..i]));
        if clean.None? {
          rejected := rejected + [(rows[i].number, errors)];
        } else {
          accepted := accepted + [clean.value];
        }
      }
      assert rows[..|rows|] == rows;
      PreviewPartitions(rows);
      p := Preview(accepted, rejected);
    }

    /** Finds or creates the row's person, places them and enrols them. */
    method ImportOne(row: CleanRow, status: CleanerStatus, site: int) returns (r: Result<(nat, bool), Refusal>)
      requires site in registry.sites
      modifies registry
      ensures var found := FindPerson(old(registry.cleaners), CleanKey(row), |old(registry.cleaners)|);
              var r' := ImportRow(registry.sites, old(registry.Tables()), row, status, site);
              && (r.Ok? <==> r'.Ok?)
              && (r.Err? ==> r'.Err? && r.error == r'.error)
              && (r.Ok? ==> registry.Tables() == r'.value
                            && r.value == if found.Some? then (found.value, false)
                                          else (|old(registry.cleaners)|, true))
      ensures r.Ok? ==> RowImported(old(registry.Tables()), row, status, site, registry.Tables(), r.value.0)
    {
      if ImportRow(registry.sites, registry.Tables(), row, status, site).Ok? {
        RowImportAnswers(registry.sites, registry.Tables(), row, status, site);
      }
      var key := CleanKey(row);
      var found := FindPerson(registry.cleaners, key, |registry.cleaners|);
      var id, created := |registry.cleaners|, true;
      if found.Some? {
        id, created := found.value, false;
      } else {
        registry.cleaners := registry.cleaners + [Cleaner(row.idType, Upper(row.idNumber), status)];
      }
      if !OpenAt(registry.assignments, id, site) {
        var placed := registry.AssignToSite(id, site, FullTime, row.registration, None);
        if placed.Err? {
          return Err(placed.error);
        }
      }
      if status == Trainee && !Training(registry.programs, id) {
        var person := registry.cleaners[id];
        if person.status == ActiveCleaner {
          return Err(AlreadyActive);
        }
        registry.programs := registry.programs
          + [Program(id, site, InTraining, row.registration, row.registration + 90)];
        registry.cleaners := registry.cleaners[id := person.(status := Trainee)];
      }
      return Ok((id, created));
    }

    /** Imports the accepted rows in order; a failure on any of them rolls the tables back. */
    method ImportAll(rows: seq<CleanRow>, status: CleanerStatus, site: int)
      returns (r: Result<(seq<nat>, seq<nat>), Refusal>)
      requires site in registry.sites
      modifies registry
      ensures var r' := ImportEach(registry.sites, old(registry.Tables()), rows, status, site);
              && (r'.Ok? ==> r.Ok? && Imported(registry.Tables(), r.value.0, r.value.1) == r'.value)
              && (r'.Err? ==> r == Err(r'.error) && registry.Tables() == old(registry.Tables()))
    {
      ghost var before := registry.Tables();
      var savedCleaners, savedAssignments, savedPrograms :=
        registry.cleaners, registry.assignments, registry.programs;
      var created, matched := [], [];
      for i := 0 to |rows|
        invariant ImportEach(registry.sites, before, rows[..i], status, site)
                  == Ok(Imported(registry.Tables(), created, matched))
      {
        assert rows[..i + 1][..i] == rows[..i];
        var one := ImportOne(rows[i], status, site);
        if one.Err? {
          ImportErrorStays(registry.sites, before, rows, status, site, i + 1);
          registry.cleaners, registry.assignments, registry.programs :=
            savedCleaners, savedAssignments, savedPrograms;
          return Err(one.error);
        }
        if one.value.1 {
          created := created + [one.value.0];
        } else {
          matched := matched + [one.value.0];
        }
      }
      assert rows[..|rows|] == rows;
      return Ok((created, matched));
    }

    /** The import: nothing is written unless every row is accepted. */
    method ImportWorkbook(rows: seq<Row>, status: CleanerStatus, site: int) returns (answer: Answer)
      requires site in registry.sites && Valid(registry.sites, registry.Tables())
      modifies registry
      ensures answer == Import(registry.sites, old(registry.Tables()), rows, status, site)
      ensures registry.Tables() == After(old(registry.Tables()), answer)
      ensures Valid(registry.sites, registry.Tables())
      ensures answer.Committed? ==>
                forall k :: |old(registry.assignments)| <= k < |registry.assignments| ==>
                  exists n :: 0 <= n < |PreviewOf(rows).accepted|
                              && AddedFor(registry.Tables(), registry.assignments[k], PreviewOf(rows).accepted[n], site)
    {
      ImportAddsForRows(registry.sites, registry.Tables(), rows, status, site);
      ImportKeepsValid(registry.sites, registry.Tables(), rows, status, site);
      if status != Trainee && status != ActiveCleaner {
        return Refused(StatusNotAllowed);
      }
      if !registry.sites[site].isActive {
        return Refused(DestinationInactive);
      }
      var preview := PreviewRows(rows);
      if preview.rejected != [] {
        return NotCommitted(preview);
      }
      var all := ImportAll(preview.accepted, status, site);
      if all.Err? {
        return Refused(all.error);
      }
      return Committed(Imported(State(registry.cleaners, registry.assignments, registry.programs),
                                all.value.0, all.value.1));
    }
  }

  lemma {:induction false} ImportErrorStays(sites: Sites, st: State, rows: seq<CleanRow>, status: CleanerStatus,
                                            site: int, n: nat)
    requires site in sites && n <= |rows| && ImportEach(sites, st, rows[..n], status, site).Err?
    ensures ImportEach(sites, st, rows, status, site) == ImportEach(sites, st, rows[..n], status, site)
  {
    if n == |rows| {
      assert rows[..n] == rows;
    } else {
      assert rows[..|rows| - 1][..n] == rows[..n];
      ImportErrorStays(sites, st, rows[..|rows| - 1], status, site, n);
    }
  }
}
