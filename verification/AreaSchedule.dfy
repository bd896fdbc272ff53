/**
  The area-schedule engine: dated area slots of assigned cleaners, with the four operations
  that write them (assign, update, deactivate, copy a day).

  Rows are never deleted, so a table is the sequence of its rows and a row's key is its
  position.  `Scheduler` is the service over its table; `Apply` is the same table as a value,
  on which whole runs are reasoned about.
*/
module AreaSchedule {
  import opened Wrappers
  import opened Sequences
  import opened DayCircle

  datatype Assignment = Assignment(cleaner: int, site: int)

  /** The reference tables the engine only reads. */
  datatype Directory = Directory(
    assignments: map<int, Assignment>,
    areaSite: map<int, int>,
    shiftSite: map<int, int>,
    roles: set<int>)

  datatype Slot = Slot(
    assignment: int,
    area: int,
    role: int,
    date: int,
    start: Time,
    end: Time,
    shift: Option<int>,
    notes: string,
    active: bool)

  /** The optional arguments of an update; `None` leaves the column as it is. */
  datatype Patch = Patch(
    area: Option<int>,
    role: Option<int>,
    start: Option<Time>,
    end: Option<Time>,
    shift: Option<int>,
    notes: Option<string>)

  datatype Refusal = NotClean | Overlapping | NoSuchSlot

  /** Field and cross-table validation of a row. */
  predicate Clean(dir: Directory, slot: Slot) {
    && slot.assignment in dir.assignments
    && slot.role in dir.roles
    && slot.area in dir.areaSite
    && dir.areaSite[slot.area] == dir.assignments[slot.assignment].site
    && (slot.shift.Some? ==>
          && slot.shift.value in dir.shiftSite
          && dir.shiftSite[slot.shift.value] == dir.assignments[slot.assignment].site)
  }

  predicate HeldBy(dir: Directory, slot: Slot, cleaner: int) {
    slot.assignment in dir.assignments && dir.assignments[slot.assignment].cleaner == cleaner
  }

  predicate SameCleanerDay(dir: Directory, a: Slot, b: Slot) {
    b.assignment in dir.assignments && HeldBy(dir, a, dir.assignments[b.assignment].cleaner) && a.date == b.date
  }

  predicate Clash(dir: Directory, a: Slot, b: Slot) {
    SameCleanerDay(dir, a, b) && SpansOverlap(a.start, a.end, b.start, b.end)
  }

  /** Some active row other than `except` overlaps `slot` on its cleaner's day. */
  predicate Clashes(dir: Directory, slots: seq<Slot>, slot: Slot, except: Option<nat>) {
    exists id :: 0 <= id < |slots| && Some(id) != except && slots[id].active && Clash(dir, slot, slots[id])
  }

  ghost predicate Valid(dir: Directory, slots: seq<Slot>) {
    && (forall id :: 0 <= id < |slots| ==> Clean(dir, slots[id]))
    && (forall i, j :: 0 <= i < j < |slots| && slots[i].active && slots[j].active
          ==> !Clash(dir, slots[i], slots[j]))
  }

  // ---- What each operation does to the table ----

  function Patched(slot: Slot, patch: Patch): Slot {
    slot.(area := if patch.area.Some? then patch.area.value else slot.area,
          role := if patch.role.Some? then patch.role.value else slot.role,
          start := if patch.start.Some? then patch.start.value else slot.start,
          end := if patch.end.Some? then patch.end.value else slot.end,
          shift := if patch.shift.Some? then patch.shift else slot.shift,
          notes := if patch.notes.Some? then patch.notes.value else slot.notes)
  }

  /** The rows a day copy starts from. */
  predicate IsSource(slot: Slot, assignment: int, from: int) {
    slot.assignment == assignment && slot.date == from && slot.active
  }

  /** `order` names each source row exactly once: one possible order of the query's answer. */
  predicate ListsSources(order: seq<nat>, slots: seq<Slot>, assignment: int, from: int) {
    && (forall i, j :: 0 <= i < j < |order| ==> order[i] != order[j])
    && (forall i :: 0 <= i < |order| ==> order[i] < |slots| && IsSource(slots[order[i]], assignment, from))
    && (forall id :: 0 <= id < |slots| && IsSource(slots[id], assignment, from) ==> id in order)
  }

  function Rows(slots: seq<Slot>, order: seq<nat>): (rows: seq<Slot>)
    requires forall i :: 0 <= i < |order| ==> order[i] < |slots|
    ensures |rows| == |order|
    ensures forall i :: 0 <= i < |order| ==> rows[i] == slots[order[i]]
  {
    seq(|order|, i requires 0 <= i < |order| => slots[order[i]])
  }

  function Moved(slot: Slot, to: int): Slot {
    slot.(date := to, active := true)
  }

  /** The copies of `rows` that overlap nothing in the table as it is before the copy. */
  function FreeCopies(dir: Directory, slots: seq<Slot>, rows: seq<Slot>, to: int): seq<Slot> {
    if rows == [] then [] else
      var last := Moved(rows[|rows| - 1], to);
      FreeCopies(dir, slots, rows[..|rows| - 1], to) + (if Clashes(dir, slots, last, None) then [] else [last])
  }

  datatype Command =
    | Assign(slot: Slot)
    | Update(id: nat, patch: Patch)
    | Deactivate(id: nat)
    | Copy(assignment: int, from: int, to: int, order: seq<nat>)

  function Try(dir: Directory, slots: seq<Slot>, cmd: Command): Result<seq<Slot>, Refusal> {
    match cmd
    case Assign(slot) =>
      var row := slot.(active := true);
      if !Clean(dir, row) then Err(NotClean)
      else if Clashes(dir, slots, row, None) then Err(Overlapping)
      else Ok(slots + [row])
    case Update(id, patch) =>
      if id >= |slots| then Err(NoSuchSlot)
      else
        var row := Patched(slots[id], patch);
        if !Clean(dir, row) then Err(NotClean)
        else if Clashes(dir, slots, row, Some(id)) then Err(Overlapping)
        else Ok(slots[id := row])
    case Deactivate(id) =>
      if id >= |slots| then Err(NoSuchSlot)
      else Ok(slots[id := slots[id].(active := false)])
    case Copy(assignment, from, to, order) =>
      // an order that does not list the day's rows is not an answer the query can give
      if !ListsSources(order, slots, assignment, from) then Err(NoSuchSlot)
      else Ok(slots + FreeCopies(dir, slots, Rows(slots, order), to))
  }

  function Apply(dir: Directory, slots: seq<Slot>, cmd: Command): seq<Slot> {
    match Try(dir, slots, cmd)
    case Ok(slots') => slots'
    case Err(_) => slots
  }

  function Run(dir: Directory, slots: seq<Slot>, cmds: seq<Command>): seq<Slot> {
    if cmds == [] then slots else Apply(dir, Run(dir, slots, cmds[..|cmds| - 1]), cmds[|cmds| - 1])
  }

  // ---- Single operations ----

  lemma ClashSymmetric(dir: Directory, a: Slot, b: Slot)
    ensures Clash(dir, a, b) <==> Clash(dir, b, a)
  {
  }

  /** A row whose references exist and whose area and shift belong to its assignment's site. */
  predicate AtOneSite(dir: Directory, slot: Slot) {
    && slot.assignment in dir.assignments.Keys && slot.area in dir.areaSite.Keys && slot.role in dir.roles
    && var site := dir.assignments[slot.assignment].site;
       && dir.areaSite[slot.area] == site
       && match slot.shift
          case None => true
          case Some(shift) => shift in dir.shiftSite.Keys && dir.shiftSite[shift] == site
  }

  /**
    None of the minutes of `slot` is taken: every other active row of the same cleaner and date occupies others.
    Rows of other cleaners do not matter.
  */
  ghost predicate FreeMinutes(dir: Directory, slots: seq<Slot>, slot: Slot, except: Option<nat>) {
    forall id: nat ::
      && id < |slots| && except != Some(id) && slots[id].active && slots[id].date == slot.date
      && slots[id].assignment in dir.assignments && slot.assignment in dir.assignments
      && dir.assignments[slots[id].assignment].cleaner == dir.assignments[slot.assignment].cleaner
      ==> Arc(slot.start, slot.end) !! Arc(slots[id].start, slots[id].end)
  }

  lemma ClashesMeans(dir: Directory, slots: seq<Slot>, slot: Slot, except: Option<nat>)
    ensures Clashes(dir, slots, slot, except) <==> !FreeMinutes(dir, slots, slot, except)
  {
    forall id | 0 <= id < |slots|
      ensures SpansOverlap(slot.start, slot.end, slots[id].start, slots[id].end)
         <==> !(Arc(slot.start, slot.end) !! Arc(slots[id].start, slots[id].end))
    {
      OverlapIsSharedMinute(slot.start, slot.end, slots[id].start, slots[id].end);
    }
  }

  /**
    A slot is accepted exactly when its references fit and its minutes are free of the cleaner's other active slots
    that day; then it is the one row added, active.
  */
  lemma AssignAcceptsFreeMinutes(dir: Directory, slots: seq<Slot>, slot: Slot)
    ensures Try(dir, slots, Assign(slot))
            == if !AtOneSite(dir, slot) then Err(NotClean)
               else if !FreeMinutes(dir, slots, slot, None) then Err(Overlapping)
               else Ok(slots + [slot.(active := true)])
  {
    ClashesMeans(dir, slots, slot.(active := true), None);
    assert FreeMinutes(dir, slots, slot.(active := true), None) <==> FreeMinutes(dir, slots, slot, None);
  }

  /** An update is accepted exactly when the row with the given columns fits and is free of all rows but itself. */
  lemma UpdateAcceptsFreeMinutes(dir: Directory, slots: seq<Slot>, id: nat, patch: Patch, row: Slot)
    requires id < |slots| && Rewritten(slots[id], patch, row)
    ensures Try(dir, slots, Update(id, patch))
            == if !AtOneSite(dir, row) then Err(NotClean)
               else if !FreeMinutes(dir, slots, row, Some(id)) then Err(Overlapping)
               else Ok(slots[id := row])
  {
    ClashesMeans(dir, slots, row, Some(id));
  }

  /** Column by column: the given value where there is one, else the old one. */
  predicate Rewritten(before: Slot, patch: Patch, after: Slot) {
    && after.assignment == before.assignment && after.date == before.date && after.active == before.active
    && Given(patch.area, before.area, after.area) && Given(patch.role, before.role, after.role)
    && Given(patch.start, before.start, after.start) && Given(patch.end, before.end, after.end)
    && Given(patch.notes, before.notes, after.notes)
    && (patch.shift.None? ==> after.shift == before.shift) && (patch.shift.Some? ==> after.shift == patch.shift)
  }

  predicate Given<T(==)>(given: Option<T>, before: T, after: T) {
    match given case None => after == before case Some(value) => after == value
  }

  /** Every copy made stems from a source row and was free in the table before the copy. */
  lemma {:induction false} FreeCopyOrigin(dir: Directory, slots: seq<Slot>, rows: seq<Slot>, to: int, n: nat)
    returns (i: nat)
    requires n < |FreeCopies(dir, slots, rows, to)|
    ensures i < |rows| && FreeCopies(dir, slots, rows, to)[n] == Moved(rows[i], to)
    ensures !Clashes(dir, slots, Moved(rows[i], to), None)
  {
    var init := rows[..|rows| - 1];
    if n < |FreeCopies(dir, slots, init, to)| {
      i := FreeCopyOrigin(dir, slots, init, to, n);
    } else {
      i := |rows| - 1;
    }
  }

  ghost predicate PairwiseApart(rows: seq<Slot>) {
    forall i, j :: 0 <= i < j < |rows| ==> !SpansOverlap(rows[i].start, rows[i].end, rows[j].start, rows[j].end)
  }

  lemma SourcesApart(dir: Directory, slots: seq<Slot>, assignment: int, from: int, order: seq<nat>)
    requires Valid(dir, slots) && ListsSources(order, slots, assignment, from)
    ensures PairwiseApart(Rows(slots, order))
  {
    var rows := Rows(slots, order);
    forall i, j | 0 <= i < j < |rows|
      ensures !SpansOverlap(rows[i].start, rows[i].end, rows[j].start, rows[j].end)
    {
      var a, b := order[i], order[j];
      assert !Clash(dir, slots[a], slots[b]) by {
        ClashSymmetric(dir, slots[a], slots[b]);
        assert a < b || b < a;
      }
    }
  }

  /**
    The greedy loop is not greedy: whatever it has already copied never blocks a later source,
    so testing against the growing table and against the table before the copy agree.
  */
  lemma EarlierCopiesNeverBlock(dir: Directory, slots: seq<Slot>, rows: seq<Slot>, to: int, n: nat)
    requires PairwiseApart(rows) && n < |rows|
    ensures Clashes(dir, slots + FreeCopies(dir, slots, rows[..n], to), Moved(rows[n], to), None)
       <==> Clashes(dir, slots, Moved(rows[n], to), None)
  {
    var copies := FreeCopies(dir, slots, rows[..n], to);
    var now, slot := slots + copies, Moved(rows[n], to);
    if id :| 0 <= id < |slots| && slots[id].active && Clash(dir, slot, slots[id]) {
      assert now[id] == slots[id];
    }
    forall id | |slots| <= id < |now| ensures !Clash(dir, slot, now[id]) {
      var i := FreeCopyOrigin(dir, slots, rows[..n], to, id - |slots|);
      assert !SpansOverlap(rows[i].start, rows[i].end, rows[n].start, rows[n].end);
    }
  }

  lemma FreeCopiesApart(dir: Directory, slots: seq<Slot>, rows: seq<Slot>, to: int)
    requires PairwiseApart(rows)
    ensures PairwiseApart(FreeCopies(dir, slots, rows, to))
  {
    if rows != [] {
      var init := rows[..|rows| - 1];
      FreeCopiesApart(dir, slots, init, to);
      var before, all := FreeCopies(dir, slots, init, to), FreeCopies(dir, slots, rows, to);
      forall i, j | 0 <= i < j < |all|
        ensures !SpansOverlap(all[i].start, all[i].end, all[j].start, all[j].end)
      {
        if j == |before| {
          var k := FreeCopyOrigin(dir, slots, init, to, i);
          assert !SpansOverlap(rows[k].start, rows[k].end, rows[|init|].start, rows[|init|].end);
        }
      }
    }
  }

  lemma AppendKeepsValid(dir: Directory, slots: seq<Slot>, rows: seq<Slot>)
    requires Valid(dir, slots) && PairwiseApart(rows)
    requires forall i :: 0 <= i < |rows| ==> Clean(dir, rows[i]) && !Clashes(dir, slots, rows[i], None)
    ensures Valid(dir, slots + rows)
  {
    var all := slots + rows;
    forall i, j | 0 <= i < j < |all| && all[i].active && all[j].active ensures !Clash(dir, all[i], all[j]) {
      if i < |slots| <= j {
        assert all[j] == rows[j - |slots|];
        ClashSymmetric(dir, all[i], all[j]);
      }
    }
  }

  /** Every operation, accepted or refused, keeps a cleaner's active slots of a day pairwise apart. */
  lemma ApplyKeepsValid(dir: Directory, slots: seq<Slot>, cmd: Command)
    requires Valid(dir, slots)
    ensures Valid(dir, Apply(dir, slots, cmd))
  {
    if Try(dir, slots, cmd).Ok? {
      match cmd
      case Assign(slot) =>
        AppendKeepsValid(dir, slots, [slot.(active := true)]);
      case Update(id, patch) =>
        var slots' := Apply(dir, slots, cmd);
        forall j | 0 <= j < |slots'| && j != id && slots'[id].active && slots'[j].active
          ensures !Clash(dir, slots'[id], slots'[j]) && !Clash(dir, slots'[j], slots'[id])
        {
          ClashSymmetric(dir, slots'[id], slots'[j]);
        }
      case Deactivate(id) =>
      case Copy(assignment, from, to, order) =>
        SourcesApart(dir, slots, assignment, from, order);
        var rows := Rows(slots, order);
        var copies := FreeCopies(dir, slots, rows, to);
        FreeCopiesApart(dir, slots, rows, to);
        forall n | 0 <= n < |copies| ensures Clean(dir, copies[n]) && !Clashes(dir, slots, copies[n], None) {
          var i := FreeCopyOrigin(dir, slots, rows, to, n);
        }
        AppendKeepsValid(dir, slots, copies);
    }
  }

  // ---- Whole runs ----

  lemma {:induction false} RunKeepsValid(dir: Directory, cmds: seq<Command>)
    ensures Valid(dir, Run(dir, [], cmds))
  {
    if cmds != [] {
      RunKeepsValid(dir, cmds[..|cmds| - 1]);
      ApplyKeepsValid(dir, Run(dir, [], cmds[..|cmds| - 1]), cmds[|cmds| - 1]);
    }
  }

  predicate WorksOn(dir: Directory, slot: Slot, cleaner: int, date: int) {
    slot.active && slot.date == date && HeldBy(dir, slot, cleaner)
  }

  /** Total length of a cleaner's active slots on one date. */
  function BookedMinutes(dir: Directory, slots: seq<Slot>, cleaner: int, date: int): nat {
    if slots == [] then 0 else
      var last := slots[|slots| - 1];
      BookedMinutes(dir, slots[..|slots| - 1], cleaner, date)
      + if WorksOn(dir, last, cleaner, date) then Duration(last.start, last.end) else 0
  }

  /** The clock minutes those slots occupy. */
  ghost function OccupiedMinutes(dir: Directory, slots: seq<Slot>, cleaner: int, date: int): set<int> {
    if slots == [] then {} else
      var last := slots[|slots| - 1];
      OccupiedMinutes(dir, slots[..|slots| - 1], cleaner, date)
      + if WorksOn(dir, last, cleaner, date) then Arc(last.start, last.end) else {}
  }

  lemma {:induction false} OccupiedBySome(dir: Directory, slots: seq<Slot>, cleaner: int, date: int, m: int)
    requires m in OccupiedMinutes(dir, slots, cleaner, date)
    ensures 0 <= m < MINUTES_PER_DAY
    ensures exists i :: 0 <= i < |slots| && WorksOn(dir, slots[i], cleaner, date)
                        && m in Arc(slots[i].start, slots[i].end)
  {
    var init, last := slots[..|slots| - 1], slots[|slots| - 1];
    if m in OccupiedMinutes(dir, init, cleaner, date) {
      OccupiedBySome(dir, init, cleaner, date, m);
      var i :| 0 <= i < |init| && WorksOn(dir, init[i], cleaner, date) && m in Arc(init[i].start, init[i].end);
      assert slots[i] == init[i];
    } else {
      assert WorksOn(dir, last, cleaner, date) && m in Arc(last.start, last.end);
    }
  }

  /** Booked time and occupied time are the same when no two slots share a minute. */
  lemma {:induction false} BookedIsOccupied(dir: Directory, slots: seq<Slot>, cleaner: int, date: int)
    requires Valid(dir, slots)
    ensures BookedMinutes(dir, slots, cleaner, date) == |OccupiedMinutes(dir, slots, cleaner, date)|
  {
    if slots != [] {
      var init, last := slots[..|slots| - 1], slots[|slots| - 1];
      BookedIsOccupied(dir, init, cleaner, date);
      if WorksOn(dir, last, cleaner, date) {
        ArcSize(last.start, last.end);
        forall m | m in OccupiedMinutes(dir, init, cleaner, date) ensures m !in Arc(last.start, last.end) {
          OccupiedBySome(dir, init, cleaner, date, m);
          var i :| 0 <= i < |init| && WorksOn(dir, init[i], cleaner, date) && m in Arc(init[i].start, init[i].end);
          assert !Clash(dir, slots[i], slots[|init|]);
          OverlapIsSharedMinute(init[i].start, init[i].end, last.start, last.end);
        }
        assert OccupiedMinutes(dir, init, cleaner, date) !! Arc(last.start, last.end);
      }
    }
  }

  /**
    Over every run any two active slots of a cleaner on one date share no minute of the clock,
    and so together they never last longer than one day.
  */
  lemma RunNeverDoubleBooks(dir: Directory, cmds: seq<Command>, cleaner: int, date: int)
    ensures var slots := Run(dir, [], cmds);
            && (forall i, j :: 0 <= i < j < |slots|
                  && WorksOn(dir, slots[i], cleaner, date) && WorksOn(dir, slots[j], cleaner, date)
                  ==> Arc(slots[i].start, slots[i].end) !! Arc(slots[j].start, slots[j].end))
            && BookedMinutes(dir, slots, cleaner, date) <= MINUTES_PER_DAY
  {
    var slots := Run(dir, [], cmds);
    RunKeepsValid(dir, cmds);
    forall i, j | 0 <= i < j < |slots|
                  && WorksOn(dir, slots[i], cleaner, date) && WorksOn(dir, slots[j], cleaner, date)
      ensures Arc(slots[i].start, slots[i].end) !! Arc(slots[j].start, slots[j].end)
    {
      assert !Clash(dir, slots[i], slots[j]);
      OverlapIsSharedMinute(slots[i].start, slots[i].end, slots[j].start, slots[j].end);
    }
    AtMostOneDay(dir, slots, cleaner, date, Time(0, 0));
  }

  lemma AtMostOneDay(dir: Directory, slots: seq<Slot>, cleaner: int, date: int, from: Time)
    requires Valid(dir, slots)
    ensures BookedMinutes(dir, slots, cleaner, date) <= MINUTES_PER_DAY
  {
    BookedIsOccupied(dir, slots, cleaner, date);
    var occupied := OccupiedMinutes(dir, slots, cleaner, date);
    forall m | m in occupied ensures m in Walk(from, MINUTES_PER_DAY) {
      OccupiedBySome(dir, slots, cleaner, date, m);
      OnceAround(from, m);
    }
    WalkSize(from, MINUTES_PER_DAY);
    SubsetSize(occupied, Walk(from, MINUTES_PER_DAY));
  }

  lemma SubsetSize(a: set<int>, b: set<int>)
    requires a <= b
    ensures |a| <= |b|
  {
    assert b == a + (b - a);
  }

  /**
    History is kept over every run: a row never disappears, never changes assignment or date,
    and once removed is never active again.
  */
  lemma {:induction false} RunPreservesHistory(dir: Directory, slots: seq<Slot>, cmds: seq<Command>, id: nat)
    requires id < |slots|
    ensures var slots' := Run(dir, slots, cmds);
            && id < |slots'|
            && slots'[id].assignment == slots[id].assignment
            && slots'[id].date == slots[id].date
            && (slots'[id].active ==> slots[id].active)
  {
    if cmds != [] {
      RunPreservesHistory(dir, slots, cmds[..|cmds| - 1], id);
    }
  }

  // ---- Copying a day ----

  /** How often a row occurs among the copies: as often as among the sources if free, else never. */
  lemma {:induction false} FreeCopiesCount(dir: Directory, slots: seq<Slot>, order: seq<nat>, to: int, c: Slot)
    requires forall i :: 0 <= i < |order| ==> order[i] < |slots|
    ensures multiset(FreeCopies(dir, slots, Rows(slots, order), to))[c]
            == if Clashes(dir, slots, c, None) then 0 else CopiesOf(slots, order, to, c)
  {
    if order != [] {
      var init := order[..|order| - 1];
      FreeCopiesCount(dir, slots, init, to, c);
      RowsOneMore(slots, order);
      FreeCopiesOneMore(dir, slots, Rows(slots, init), slots[order[|order| - 1]], to, c);
    }
  }

  lemma RowsOneMore(slots: seq<Slot>, order: seq<nat>)
    requires order != [] && forall i :: 0 <= i < |order| ==> order[i] < |slots|
    ensures Rows(slots, order) == Rows(slots, order[..|order| - 1]) + [slots[order[|order| - 1]]]
  {
  }

  lemma FreeCopiesOneMore(dir: Directory, slots: seq<Slot>, rows: seq<Slot>, row: Slot, to: int, c: Slot)
    ensures multiset(FreeCopies(dir, slots, rows + [row], to))[c]
            == multiset(FreeCopies(dir, slots, rows, to))[c]
               + if Moved(row, to) == c && !Clashes(dir, slots, c, None) then 1 else 0
  {
    assert (rows + [row])[..|rows|] == rows;
  }

  /** The number of listed rows whose copy is `c`. */
  ghost function CopiesOf(slots: seq<Slot>, order: seq<nat>, to: int, c: Slot): nat
    requires forall i :: 0 <= i < |order| ==> order[i] < |slots|
  {
    if order == [] then 0
    else CopiesOf(slots, order[..|order| - 1], to, c)
         + if Moved(slots[order[|order| - 1]], to) == c then 1 else 0
  }

  lemma {:induction false} CopiesOfRemove(slots: seq<Slot>, order: seq<nat>, to: int, c: Slot, k: nat)
    requires forall i :: 0 <= i < |order| ==> order[i] < |slots|
    requires k < |order|
    ensures CopiesOf(slots, order, to, c)
            == CopiesOf(slots, order[..k] + order[k + 1..], to, c) + if Moved(slots[order[k]], to) == c then 1 else 0
  {
    if k == |order| - 1 {
      assert order[..k] + order[k + 1..] == order[..k];
    } else {
      var init, rest := order[..|order| - 1], order[..k] + order[k + 1..];
      CopiesOfRemove(slots, init, to, c, k);
      LastStays(order, k);
      assert rest[..|rest| - 1] == init[..k] + init[k + 1..];
    }
  }

  lemma {:induction false} CopiesOfPermuted(slots: seq<Slot>, order1: seq<nat>, order2: seq<nat>, to: int, c: Slot)
    requires forall i :: 0 <= i < |order1| ==> order1[i] < |slots|
    requires forall i :: 0 <= i < |order2| ==> order2[i] < |slots|
    requires multiset(order1) == multiset(order2)
    ensures CopiesOf(slots, order1, to, c) == CopiesOf(slots, order2, to, c)
  {
    if order1 == [] {
      assert multiset(order2) == multiset{} && |order2| == |multiset(order2)|;
    } else {
      var k := SameLast(order1, order2);
      CopiesOfPermuted(slots, order1[..|order1| - 1], order2[..k] + order2[k + 1..], to, c);
      CopiesOfRemove(slots, order2, to, c, k);
    }
  }

  lemma {:induction false} OnceEach(order: seq<nat>, id: nat)
    requires forall i, j :: 0 <= i < j < |order| ==> order[i] != order[j]
    ensures multiset(order)[id] == if id in order then 1 else 0
  {
    if order != [] {
      var init := order[..|order| - 1];
      OnceEach(init, id);
      assert order == init + [order[|order| - 1]];
    }
  }

  lemma SourcesAreSame(slots: seq<Slot>, assignment: int, from: int, order1: seq<nat>, order2: seq<nat>)
    requires ListsSources(order1, slots, assignment, from) && ListsSources(order2, slots, assignment, from)
    ensures multiset(order1) == multiset(order2)
  {
    forall id: nat ensures multiset(order1)[id] == multiset(order2)[id] {
      OnceEach(order1, id);
      OnceEach(order2, id);
    }
  }

  /** The order in which the database returns the source rows does not change which copies are made. */
  lemma CopyIgnoresOrder(dir: Directory, slots: seq<Slot>, assignment: int, from: int, to: int,
                         order1: seq<nat>, order2: seq<nat>)
    requires ListsSources(order1, slots, assignment, from) && ListsSources(order2, slots, assignment, from)
    ensures multiset(FreeCopies(dir, slots, Rows(slots, order1), to))
            == multiset(FreeCopies(dir, slots, Rows(slots, order2), to))
  {
    SourcesAreSame(slots, assignment, from, order1, order2);
    forall c: Slot
      ensures multiset(FreeCopies(dir, slots, Rows(slots, order1), to))[c]
              == multiset(FreeCopies(dir, slots, Rows(slots, order2), to))[c]
    {
      FreeCopiesCount(dir, slots, order1, to, c);
      FreeCopiesCount(dir, slots, order2, to, c);
      CopiesOfPermuted(slots, order1, order2, to, c);
    }
  }

  lemma {:induction false} FreeSourceIsCopied(dir: Directory, slots: seq<Slot>, rows: seq<Slot>, to: int, n: nat)
    returns (k: nat)
    requires n < |rows| && !Clashes(dir, slots, Moved(rows[n], to), None)
    ensures k < |FreeCopies(dir, slots, rows, to)| && FreeCopies(dir, slots, rows, to)[k] == Moved(rows[n], to)
  {
    var init := rows[..|rows| - 1];
    if n < |init| {
      k := FreeSourceIsCopied(dir, slots, init, to, n);
    } else {
      k := |FreeCopies(dir, slots, init, to)|;
    }
  }

  lemma ClashesSelf(dir: Directory, slots: seq<Slot>, id: nat, slot: Slot)
    requires id < |slots| && slots[id].active && slots[id].assignment in dir.assignments
    requires slot == slots[id].(area := slot.area, role := slot.role, shift := slot.shift, notes := slot.notes)
    ensures Clashes(dir, slots, slot, None)
  {
    assert Clash(dir, slot, slots[id]);
  }

  /** Where a source row was copied its copy blocks it, and where it was not something else did. */
  lemma CopiedOrBlocked(dir: Directory, slots: seq<Slot>, rows: seq<Slot>, to: int, n: nat)
    requires n < |rows| && Clean(dir, rows[n])
    ensures Clashes(dir, slots + FreeCopies(dir, slots, rows, to), Moved(rows[n], to), None)
  {
    var slot := Moved(rows[n], to);
    var slots' := slots + FreeCopies(dir, slots, rows, to);
    if Clashes(dir, slots, slot, None) {
      var id :| 0 <= id < |slots| && slots[id].active && Clash(dir, slot, slots[id]);
      assert slots'[id] == slots[id];
    } else {
      var k := FreeSourceIsCopied(dir, slots, rows, to, n);
      assert slots'[|slots| + k] == slot;
      ClashesSelf(dir, slots', |slots| + k, slot);
    }
  }

  lemma {:induction false} AllBlocked(dir: Directory, slots: seq<Slot>, rows: seq<Slot>, to: int)
    requires forall i :: 0 <= i < |rows| ==> Clashes(dir, slots, Moved(rows[i], to), None)
    ensures FreeCopies(dir, slots, rows, to) == []
  {
    if rows != [] {
      assert Clashes(dir, slots, Moved(rows[|rows| - 1], to), None);
      AllBlocked(dir, slots, rows[..|rows| - 1], to);
    }
  }

  /** A row copied to another date: active, all other columns the same. */
  predicate CopyOf(source: Slot, to: int, copy: Slot) {
    && copy.assignment == source.assignment && copy.area == source.area && copy.role == source.role
    && copy.start == source.start && copy.end == source.end && copy.shift == source.shift
    && copy.notes == source.notes && copy.date == to && copy.active
  }

  /** The query's answer: the active rows of one assignment on one date, each once. */
  ghost predicate IsDay(order: seq<nat>, slots: seq<Slot>, assignment: int, date: int) {
    && (forall i, j :: 0 <= i < j < |order| ==> order[i] != order[j])
    && (forall id: nat :: id in order <==>
          id < |slots| && slots[id].assignment == assignment && slots[id].date == date && slots[id].active)
  }

  /**
    A day copy keeps all rows and adds, for each active row of the assignment on the source day whose minutes are
    free on the target day, one active copy with the same columns, and nothing else.
  */
  lemma CopyMakesFreeSources(dir: Directory, slots: seq<Slot>, assignment: int, from: int, to: int, order: seq<nat>)
    requires Valid(dir, slots) && IsDay(order, slots, assignment, from)
    ensures Try(dir, slots, Copy(assignment, from, to, order)).Ok?
    ensures var slots' := Apply(dir, slots, Copy(assignment, from, to, order));
            && slots <= slots'
            && (forall id :: id in order ==>
                  (FreeMinutes(dir, slots, slots[id].(date := to), None) <==> HasCopy(slots', |slots|, slots[id], to)))
            && (forall k :: |slots| <= k < |slots'| ==> exists id :: id in order && CopyOf(slots[id], to, slots'[k]))
            && (forall k, l :: |slots| <= k < l < |slots'| ==> slots'[k] != slots'[l])
  {
    DayIsListed(order, slots, assignment, from);
    var rows := Rows(slots, order);
    var slots' := Apply(dir, slots, Copy(assignment, from, to, order));
    SourcesApart(dir, slots, assignment, from, order);
    FreeCopiesApart(dir, slots, rows, to);
    forall id | id in order
      ensures FreeMinutes(dir, slots, slots[id].(date := to), None) <==> HasCopy(slots', |slots|, slots[id], to)
    {
      var n :| 0 <= n < |order| && order[n] == id;
      SourceHasCopy(dir, slots, rows, to, n);
    }
    forall k | |slots| <= k < |slots'| ensures exists id :: id in order && CopyOf(slots[id], to, slots'[k]) {
      var i := FreeCopyOrigin(dir, slots, rows, to, k - |slots|);
      assert order[i] in order;
    }
    ApartRowsDiffer(slots, FreeCopies(dir, slots, rows, to));
  }

  lemma DayIsListed(order: seq<nat>, slots: seq<Slot>, assignment: int, from: int)
    requires IsDay(order, slots, assignment, from)
    ensures ListsSources(order, slots, assignment, from)
  {
    forall i | 0 <= i < |order| ensures order[i] < |slots| && IsSource(slots[order[i]], assignment, from) {
      assert order[i] in order;
    }
  }

  lemma ApartRowsDiffer(slots: seq<Slot>, copies: seq<Slot>)
    requires PairwiseApart(copies)
    ensures forall k, l :: |slots| <= k < l < |slots + copies| ==> (slots + copies)[k] != (slots + copies)[l]
  {
    forall k, l | |slots| <= k < l < |slots + copies| ensures (slots + copies)[k] != (slots + copies)[l] {
      SelfOverlaps(copies[k - |slots|]);
      assert (slots + copies)[k] == copies[k - |slots|] && (slots + copies)[l] == copies[l - |slots|];
    }
  }

  predicate HasCopy(slots: seq<Slot>, from: nat, source: Slot, to: int) {
    exists k :: from <= k < |slots| && CopyOf(source, to, slots[k])
  }

  lemma SelfOverlaps(slot: Slot)
    ensures SpansOverlap(slot.start, slot.end, slot.start, slot.end)
  {
  }

  lemma SourceHasCopy(dir: Directory, slots: seq<Slot>, rows: seq<Slot>, to: int, n: nat)
    requires n < |rows| && rows[n].active && PairwiseApart(rows)
    ensures var slots' := slots + FreeCopies(dir, slots, rows, to);
            FreeMinutes(dir, slots, rows[n].(date := to), None) <==> HasCopy(slots', |slots|, rows[n], to)
  {
    var copies := FreeCopies(dir, slots, rows, to);
    var slots' := slots + copies;
    ClashesMeans(dir, slots, Moved(rows[n], to), None);
    if FreeMinutes(dir, slots, rows[n].(date := to), None) {
      var k := FreeSourceIsCopied(dir, slots, rows, to, n);
      assert CopyOf(rows[n], to, slots'[|slots| + k]);
    }
    if HasCopy(slots', |slots|, rows[n], to) {
      var k :| |slots| <= k < |slots'| && CopyOf(rows[n], to, slots'[k]);
      var i := FreeCopyOrigin(dir, slots, rows, to, k - |slots|);
      assert slots'[k] == Moved(rows[n], to);
    }
  }

  /** Repeating a copy, in whatever order its rows now come, creates nothing. */
  lemma CopyTwiceCreatesNothing(dir: Directory, slots: seq<Slot>, assignment: int, from: int, to: int,
                                order: seq<nat>, again: seq<nat>)
    requires Valid(dir, slots) && ListsSources(order, slots, assignment, from)
    requires ListsSources(again, Apply(dir, slots, Copy(assignment, from, to, order)), assignment, from)
    ensures var slots' := Apply(dir, slots, Copy(assignment, from, to, order));
            Apply(dir, slots', Copy(assignment, from, to, again)) == slots'
  {
    var slots' := Apply(dir, slots, Copy(assignment, from, to, order));
    ApplyKeepsValid(dir, slots, Copy(assignment, from, to, order));
    var first, second := Rows(slots, order), Rows(slots', again);
    assert slots' == slots + FreeCopies(dir, slots, first, to);
    forall i | 0 <= i < |second| ensures Clashes(dir, slots', Moved(second[i], to), None) {
      SourceBlocked(dir, slots, assignment, from, to, order, again[i]);
    }
    AllBlocked(dir, slots', second, to);
  }

  /** After a copy every source row, old or just copied, is blocked on the target day. */
  lemma SourceBlocked(dir: Directory, slots: seq<Slot>, assignment: int, from: int, to: int, order: seq<nat>, id: nat)
    requires Valid(dir, slots) && ListsSources(order, slots, assignment, from)
    requires var slots' := slots + FreeCopies(dir, slots, Rows(slots, order), to);
             id < |slots'| && Clean(dir, slots'[id]) && IsSource(slots'[id], assignment, from)
    ensures var slots' := slots + FreeCopies(dir, slots, Rows(slots, order), to);
            Clashes(dir, slots', Moved(slots'[id], to), None)
  {
    var first := Rows(slots, order);
    var slots' := slots + FreeCopies(dir, slots, first, to);
    if id < |slots| {
      assert id in order;
      var n :| 0 <= n < |order| && order[n] == id;
      CopiedOrBlocked(dir, slots, first, to, n);
    } else {
      // a row the copy itself put on the source day: then the two days are the same
      var n := FreeCopyOrigin(dir, slots, first, to, id - |slots|);
      ClashesSelf(dir, slots', id, Moved(slots'[id], to));
    }
  }

  /** Copying a date onto itself creates nothing: every source overlaps itself. */
  lemma CopyOntoItselfCreatesNothing(dir: Directory, slots: seq<Slot>, assignment: int, date: int, order: seq<nat>)
    requires Valid(dir, slots) && ListsSources(order, slots, assignment, date)
    ensures Apply(dir, slots, Copy(assignment, date, date, order)) == slots
  {
    var rows := Rows(slots, order);
    forall i | 0 <= i < |rows| ensures Clashes(dir, slots, Moved(rows[i], date), None) {
      ClashesSelf(dir, slots, order[i], Moved(rows[i], date));
    }
    AllBlocked(dir, slots, rows, date);
  }

  // ---- What the per-date check does not see ----

  /**
    In a reachable table two active slots of one cleaner are at the same absolute minute exactly when one
    crosses midnight into the next date and the other starts before its tail ends.
  */
  lemma TrueCollisionsAreOvernightTails(dir: Directory, slots: seq<Slot>, i: nat, j: nat, cleaner: int)
    requires Valid(dir, slots) && i < |slots| && j < |slots| && i != j
    requires WorksOn(dir, slots[i], cleaner, slots[i].date) && WorksOn(dir, slots[j], cleaner, slots[j].date)
    requires slots[i].date <= slots[j].date
    ensures var a, b := slots[i], slots[j];
            CollideInTime(a.date, a.start, a.end, b.date, b.start, b.end)
            <==> b.date == a.date + 1 && CrossesMidnight(a.start, a.end) && Minutes(b.start) < Minutes(a.end)
  {
    var a, b := slots[i], slots[j];
    if a.date == b.date {
      ClashSymmetric(dir, a, b);
      assert !Clash(dir, a, b);
      OverlapIsCollisionOfRepeatedDay(a.date, a.start, a.end, b.start, b.end);
    } else {
      CollisionAcrossDates(a.date, a.start, a.end, b.date, b.start, b.end);
    }
  }

  /** Such a pair is accepted: 22:00-06:00 on one date and 05:00-07:00 on the next. */
  lemma OvernightTailIsNotChecked()
    ensures exists dir: Directory, cmds: seq<Command> ::
              var slots := Run(dir, [], cmds);
              && |slots| == 2 && slots[0].active && slots[1].active
              && slots[0].assignment == slots[1].assignment
              && CollideInTime(slots[0].date, slots[0].start, slots[0].end,
                               slots[1].date, slots[1].start, slots[1].end)
  {
    var dir := Directory(map[1 := Assignment(7, 3)], map[4 := 3], map[], {2});
    var night := Slot(1, 4, 2, 100, Time(22, 0), Time(6, 0), None, "", true);
    var morning := Slot(1, 4, 2, 101, Time(5, 0), Time(7, 0), None, "", true);
    var cmds := [Assign(night), Assign(morning)];
    assert cmds[..1] == [Assign(night)] && cmds[..1][..0] == [];
    assert Run(dir, [], cmds[..1]) == [night];
    assert Run(dir, [], cmds) == [night, morning];
    CollisionAcrossDates(100, night.start, night.end, 101, morning.start, morning.end);
  }

  // ---- The service ----

  class Scheduler {
    const dir: Directory
    var slots: seq<Slot>

    constructor (dir: Directory)
      ensures this.dir == dir && slots == [] && Valid(dir, slots)
    {
      this.dir := dir;
      slots := [];
    }

    /** The query loop behind the overlap validation. */
    method FindsOverlap(slot: Slot, except: Option<nat>) returns (found: bool)
      ensures found <==> Clashes(dir, slots, slot, except)
      ensures found <==> !FreeMinutes(dir, slots, slot, except)
    {
      found := false;
      for id := 0 to |slots|
        invariant !found && !Clashes(dir, slots[..id], slot, except)
      {
        if Some(id) != except && slots[id].active && Clash(dir, slot, slots[id]) {
          found := true;
          break;
        }
      }
      assert slots[..|slots|] == slots;
      ClashesMeans(dir, slots, slot, except);
    }

    method AssignSlot(slot: Slot) returns (r: Result<nat, Refusal>)
      requires Valid(dir, slots)
      modifies this
      ensures Valid(dir, slots) && slots == Apply(dir, old(slots), Assign(slot))
      ensures r.Err? ==> Try(dir, old(slots), Assign(slot)) == Err(r.error)
      ensures r.Ok? <==> AtOneSite(dir, slot) && FreeMinutes(dir, old(slots), slot, None)
      ensures r.Ok? ==> r.value == |old(slots)| && slots == old(slots) + [slot.(active := true)]
      ensures r.Err? ==> slots == old(slots) && (r.error == NotClean <==> !AtOneSite(dir, slot))
    {
      AssignAcceptsFreeMinutes(dir, slots, slot);
      ApplyKeepsValid(dir, slots, Assign(slot));
      var row := slot.(active := true);
      if !Clean(dir, row) {
        return Err(NotClean);
      }
      var found := FindsOverlap(row, None);
      if found {
        return Err(Overlapping);
      }
      slots := slots + [row];
      return Ok(|slots| - 1);
    }

    method UpdateSlot(id: nat, patch: Patch) returns (r: Result<(), Refusal>)
      requires Valid(dir, slots)
      modifies this
      ensures Valid(dir, slots) && slots == Apply(dir, old(slots), Update(id, patch))
      ensures r.Err? ==> Try(dir, old(slots), Update(id, patch)) == Err(r.error)
      ensures r.Err? ==> slots == old(slots)
      ensures r.Ok? ==> && id < |old(slots)| && |slots| == |old(slots)|
                        && Rewritten(old(slots)[id], patch, slots[id]) && slots == old(slots)[id := slots[id]]
                        && AtOneSite(dir, slots[id]) && FreeMinutes(dir, old(slots), slots[id], Some(id))
    {
      if id < |slots| {
        UpdateAcceptsFreeMinutes(dir, slots, id, patch, Patched(slots[id], patch));
      }
      ApplyKeepsValid(dir, slots, Update(id, patch));
      if id >= |slots| {
        return Err(NoSuchSlot);
      }
      var row := Patched(slots[id], patch);
      if !Clean(dir, row) {
        return Err(NotClean);
      }
      var found := FindsOverlap(row, Some(id));
      if found {
        return Err(Overlapping);
      }
      slots := slots[id := row];
      return Ok(());
    }

    method DeactivateSlot(id: nat)
      requires Valid(dir, slots) && id < |slots|
      modifies this
      ensures Valid(dir, slots) && slots == Apply(dir, old(slots), Deactivate(id))
      ensures slots == old(slots)[id := old(slots)[id].(active := false)]
    {
      ApplyKeepsValid(dir, slots, Deactivate(id));
      slots := slots[id := slots[id].(active := false)];
    }

    /**
      Copies rows in the order they arrive, testing each against the table as it grows.
      The result is the order-free `FreeCopies` of the table before the call.
    */
    method CopyRows(sources: seq<Slot>, to: int) returns (created: nat)
      requires PairwiseApart(sources) && forall i :: 0 <= i < |sources| ==> Clean(dir, sources[i])
      modifies this
      ensures slots == old(slots) + FreeCopies(dir, old(slots), sources, to)
      ensures |slots| == |old(slots)| + created
    {
      ghost var before := slots;
      created := 0;
      for i := 0 to |sources|
        invariant slots == before + FreeCopies(dir, before, sources[..i], to)
        invariant |slots| == |before| + created
      {
        var copy := Moved(sources[i], to);
        if !Clean(dir, copy) {
          assert false; // the source row was validated, and its references are the same
        }
        EarlierCopiesNeverBlock(dir, before, sources, to, i);
        assert sources[..i + 1][..i] == sources[..i];
        var found := FindsOverlap(copy, None);
        if !found {
          slots := slots + [copy];
          created := created + 1;
        }
      }
      assert sources[..|sources|] == sources;
    }

    method CopyDay(assignment: int, from: int, to: int, order: seq<nat>) returns (created: nat)
      requires Valid(dir, slots) && ListsSources(order, slots, assignment, from)
      modifies this
      ensures Valid(dir, slots) && slots == Apply(dir, old(slots), Copy(assignment, from, to, order))
      ensures |slots| == |old(slots)| + created
    {
      ApplyKeepsValid(dir, slots, Copy(assignment, from, to, order));
      SourcesApart(dir, slots, assignment, from, order);
      created := CopyRows(Rows(slots, order), to);
    }
  }
}
