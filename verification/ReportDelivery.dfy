/**
  Scheduled reports: the window of dates each run reports on, and the durable ledger that
  keeps a period from being sent twice.
*/
module ReportDelivery {
  import opened Wrappers
  import opened Calendar
  import opened Digits

  datatype ReportType = Daily | Weekly | Monthly

  datatype Window = Window(key: string, start: Date, end: Date)

  // ---- Period windows ----

  function Iso(d: Date): string
    requires ValidDate(d)
  {
    Padded(d.year, 4) + "-" + Padded(d.month, 2) + "-" + Padded(d.day, 2)
  }

  function YearMonth(d: Date): string
    requires ValidDate(d)
  {
    Padded(d.year, 4) + "-" + Padded(d.month, 2)
  }

  /** Back to the Sunday before the week of `asOf`, and six days further. */
  function LastWeek(asOf: Date): (week: Option<(Date, Date)>)
    requires ValidDate(asOf)
    ensures week.Some? ==> ValidDate(week.value.0) && ValidDate(week.value.1)
    ensures week.Some? <==> Ordinal(asOf) - (Weekday(asOf) + 1) - 6 >= 1
    ensures week.Some? ==> Ordinal(week.value.1) == Ordinal(asOf) - (Weekday(asOf) + 1)
                           && Ordinal(week.value.0) == Ordinal(week.value.1) - 6
  {
    match MinusDays(asOf, Weekday(asOf) + 1)
    case None => None
    case Some(end) =>
      match MinusDays(end, 6)
      case None => None
      case Some(start) => Some((start, end))
  }

  /** The month of the day before the first of this one. */
  function LastMonth(asOf: Date): (month: Option<(Date, Date)>)
    requires ValidDate(asOf)
    ensures month.Some? ==> ValidDate(month.value.0) && ValidDate(month.value.1)
  {
    match MinusDays(asOf.(day := 1), 1)
    case None => None
    case Some(last) => Some((last.(day := 1), last.(day := DaysInMonth(last.year, last.month))))
  }

  /** First and last day of the period; `None` is the overflow of date arithmetic before year 1. */
  function Span(report: ReportType, asOf: Date): (span: Option<(Date, Date)>)
    requires ValidDate(asOf)
    ensures span.Some? ==> ValidDate(span.value.0) && ValidDate(span.value.1)
  {
    match report
    case Daily => Some((asOf, asOf))
    case Weekly => LastWeek(asOf)
    case Monthly => LastMonth(asOf)
  }

  function PeriodKey(report: ReportType, start: Date, end: Date): string
    requires ValidDate(start) && ValidDate(end)
  {
    match report
    case Daily => Iso(start)
    case Weekly => Iso(start) + "_" + Iso(end)
    case Monthly => YearMonth(start)
  }

  function PeriodWindow(report: ReportType, asOf: Date): (w: Option<Window>)
    requires ValidDate(asOf)
    ensures w.Some? ==> ValidDate(w.value.start) && ValidDate(w.value.end)
    ensures w.Some? <==> Span(report, asOf).Some?
    ensures w.Some? ==> Span(report, asOf) == Some((w.value.start, w.value.end))
  {
    match Span(report, asOf)
    case None => None
    case Some((start, end)) => Some(Window(PeriodKey(report, start, end), start, end))
  }

  predicate InWindow(w: Window, d: Date) {
    Ordinal(w.start) <= Ordinal(d) <= Ordinal(w.end)
  }

  /** Stepping back from a day to the Sunday before its week, and on to that week's Monday. */
  lemma SundayBefore(asOf: Date, sunday: Date)
    requires Ordinal(sunday) == Ordinal(asOf) - (Weekday(asOf) + 1)
    ensures Weekday(sunday) == 6 && Ordinal(sunday) < Ordinal(asOf) <= Ordinal(sunday) + 7
  {
    SundayNumber(Ordinal(asOf), Weekday(asOf));
  }

  lemma SundayNumber(n: int, w: int)
    requires w == (n + 6) % 7
    ensures (n - (w + 1) + 6) % 7 == 6
  {
  }

  lemma MondayBefore(sunday: Date, monday: Date)
    requires Ordinal(monday) == Ordinal(sunday) - 6 && Weekday(sunday) == 6
    ensures Weekday(monday) == 0
  {
    SundayIsNumbered(Ordinal(sunday));
  }

  lemma SundayIsNumbered(n: int)
    requires (n + 6) % 7 == 6
    ensures n % 7 == 0
  {
  }

  lemma LateEnough(n: int, w: int)
    requires w == (n + 6) % 7
    ensures n - (w + 1) - 6 >= 1 <==> n > 7
  {
  }

  /** A weekly window is the last whole Monday-to-Sunday week before the week of the run. */
  lemma WeeklyIsLastFullWeek(asOf: Date)
    requires ValidDate(asOf)
    ensures PeriodWindow(Weekly, asOf).Some? <==> Ordinal(asOf) > 7
    ensures var r := PeriodWindow(Weekly, asOf);
            r.Some? ==>
              var w := r.value;
              && Weekday(w.start) == 0 && Weekday(w.end) == 6
              && Ordinal(w.end) == Ordinal(w.start) + 6
              && Ordinal(w.end) < Ordinal(asOf) <= Ordinal(w.end) + 7
  {
    LastWeekFacts(asOf);
  }

  lemma LastWeekFacts(asOf: Date)
    requires ValidDate(asOf)
    ensures LastWeek(asOf).Some? <==> Ordinal(asOf) > 7
    ensures var week := LastWeek(asOf);
            week.Some? ==>
              && Weekday(week.value.0) == 0 && Weekday(week.value.1) == 6
              && Ordinal(week.value.1) == Ordinal(week.value.0) + 6
              && Ordinal(week.value.1) < Ordinal(asOf) <= Ordinal(week.value.1) + 7
  {
    LateEnough(Ordinal(asOf), Weekday(asOf));
    match LastWeek(asOf)
    case None =>
    case Some((monday, sunday)) =>
      SundayBefore(asOf, sunday);
      MondayBefore(sunday, monday);
  }

  lemma LastDayBeforeMonth(asOf: Date) returns (last: Date)
    requires ValidDate(asOf) && (asOf.year > 1 || asOf.month > 1)
    ensures ValidDate(last) && NextDay(last) == asOf.(day := 1)
    ensures last.day == DaysInMonth(last.year, last.month)
    ensures MinusDays(asOf.(day := 1), 1) == Some(last)
  {
    last := if asOf.month > 1 then Date(asOf.year, asOf.month - 1, DaysInMonth(asOf.year, asOf.month - 1))
            else Date(asOf.year - 1, 12, 31);
    DayBefore(last, asOf.(day := 1));
  }

  lemma DayBefore(d: Date, next: Date)
    requires ValidDate(d) && ValidDate(next) && next == NextDay(d)
    ensures MinusDays(next, 1) == Some(d)
  {
    NextOrdinal(d);
    OrdinalRange(d);
    OrdinalInjective(d, MinusDays(next, 1).value);
  }

  /** A monthly window is the whole month that ends the day before the month of the run. */
  lemma MonthlyIsPreviousMonth(asOf: Date)
    requires ValidDate(asOf)
    ensures PeriodWindow(Monthly, asOf).Some? <==> asOf.year > 1 || asOf.month > 1
    ensures var r := PeriodWindow(Monthly, asOf);
            r.Some? ==>
              var w := r.value;
              && w.start.year == w.end.year && w.start.month == w.end.month
              && w.start.day == 1 && w.end.day == DaysInMonth(w.end.year, w.end.month)
              && NextDay(w.end) == asOf.(day := 1)
  {
    if asOf.year > 1 || asOf.month > 1 {
      var last := LastDayBeforeMonth(asOf);
    } else {
      assert Ordinal(asOf.(day := 1)) == 1;
    }
  }

  /** A daily window is the run's own date. */
  lemma DailyIsTheDay(asOf: Date)
    requires ValidDate(asOf)
    ensures PeriodWindow(Daily, asOf).Some?
    ensures PeriodWindow(Daily, asOf).value.start == asOf && PeriodWindow(Daily, asOf).value.end == asOf
  {
  }

  /** Runs whose windows share a date report on the same window: windows never partly overlap. */
  lemma WindowsNeverOverlap(report: ReportType, asOf1: Date, asOf2: Date, d: Date)
    requires ValidDate(asOf1) && ValidDate(asOf2) && ValidDate(d)
    requires PeriodWindow(report, asOf1).Some? && PeriodWindow(report, asOf2).Some?
    requires InWindow(PeriodWindow(report, asOf1).value, d) && InWindow(PeriodWindow(report, asOf2).value, d)
    ensures PeriodWindow(report, asOf1).value.start == PeriodWindow(report, asOf2).value.start
    ensures PeriodWindow(report, asOf1).value.end == PeriodWindow(report, asOf2).value.end
  {
    var w1, w2 := PeriodWindow(report, asOf1).value, PeriodWindow(report, asOf2).value;
    if report == Daily {
      OrdinalInjective(asOf1, d);
      OrdinalInjective(asOf2, d);
    } else if report == Weekly {
      WeeksNeverOverlap(asOf1, asOf2, Ordinal(d));
    } else {
      MonthlyIsPreviousMonth(asOf1);
      MonthlyIsPreviousMonth(asOf2);
      MonthHolds(w1.start, w1.end, d);
      MonthHolds(w2.start, w2.end, d);
    }
  }

  lemma WeeksNeverOverlap(asOf1: Date, asOf2: Date, n: int)
    requires ValidDate(asOf1) && ValidDate(asOf2)
    requires LastWeek(asOf1).Some? && LastWeek(asOf2).Some?
    requires Ordinal(LastWeek(asOf1).value.0) <= n <= Ordinal(LastWeek(asOf1).value.1)
    requires Ordinal(LastWeek(asOf2).value.0) <= n <= Ordinal(LastWeek(asOf2).value.1)
    ensures LastWeek(asOf1) == LastWeek(asOf2)
  {
    var s1 := MondayNumber(asOf1);
    var s2 := MondayNumber(asOf2);
    SameWeek(s1, s2, n);
    OrdinalInjective(LastWeek(asOf1).value.0, LastWeek(asOf2).value.0);
    OrdinalInjective(LastWeek(asOf1).value.1, LastWeek(asOf2).value.1);
  }

  lemma MondayNumber(asOf: Date) returns (s: int)
    requires ValidDate(asOf) && LastWeek(asOf).Some?
    ensures s == Ordinal(LastWeek(asOf).value.0) && s + 6 == Ordinal(LastWeek(asOf).value.1)
    ensures (s + 6) % 7 == 0
  {
    LastWeekFacts(asOf);
    s := Ordinal(LastWeek(asOf).value.0);
  }

  lemma SameWeek(a: int, b: int, n: int)
    requires (a + 6) % 7 == 0 && (b + 6) % 7 == 0 && a <= n <= a + 6 && b <= n <= b + 6
    ensures a == b
  {
  }

  /** The dates numbered from the first to the last of a month are those of that month. */
  lemma MonthHolds(start: Date, end: Date, d: Date)
    requires ValidDate(start) && ValidDate(end) && ValidDate(d)
    requires start.year == end.year && start.month == end.month && start.day == 1
    requires end.day == DaysInMonth(end.year, end.month)
    requires Ordinal(start) <= Ordinal(d) <= Ordinal(end)
    ensures d.year == start.year && d.month == start.month
  {
    if Before(d, start) {
      OrdinalMonotone(d, start);
    }
    if Before(end, d) {
      OrdinalMonotone(end, d);
    }
  }

  /** Every date is reported on by some run, as long as the calendar reaches past it. */
  lemma EveryDateIsReported(report: ReportType, d: Date) returns (asOf: Date)
    requires ValidDate(d) && (d.year < 9999 || d.month < 12)
    ensures ValidDate(asOf) && PeriodWindow(report, asOf).Some? && InWindow(PeriodWindow(report, asOf).value, d)
  {
    if report == Daily {
      asOf := d;
    } else if report == Weekly {
      asOf := InLastWeek(d);
    } else {
      asOf := if d.month < 12 then Date(d.year, d.month + 1, 1) else Date(d.year + 1, 1, 1);
      MonthlyIsPreviousMonth(asOf);
      var w := PeriodWindow(Monthly, asOf).value;
      if d != w.start { OrdinalMonotone(w.start, d); }
      if d != w.end { OrdinalMonotone(d, w.end); }
    }
  }

  lemma InLastWeek(d: Date) returns (asOf: Date)
    requires ValidDate(d) && (d.year < 9999 || d.month < 12)
    ensures ValidDate(asOf) && LastWeek(asOf).Some?
    ensures Ordinal(LastWeek(asOf).value.0) <= Ordinal(d) <= Ordinal(LastWeek(asOf).value.1)
  {
    DaysLeft(d);
    OrdinalRange(d);
    asOf := FromOrdinal(Ordinal(d) + 7);
    WeekBefore(asOf, Ordinal(d));
  }

  lemma WeekBefore(asOf: Date, n: int)
    requires ValidDate(asOf) && Ordinal(asOf) == n + 7 && n >= 1
    ensures LastWeek(asOf).Some?
    ensures Ordinal(LastWeek(asOf).value.0) <= n <= Ordinal(LastWeek(asOf).value.1)
  {
    LastWeekFacts(asOf);
    WeekOf(n, Ordinal(asOf), Ordinal(LastWeek(asOf).value.1));
  }

  lemma WeekOf(n: int, m: int, end: int)
    requires m == n + 7 && (end + 6) % 7 == 6 && end < m <= end + 7
    ensures end - 6 <= n <= end
  {
  }

  lemma DaysLeft(d: Date)
    requires ValidDate(d) && (d.year < 9999 || d.month < 12)
    ensures Ordinal(d) + 7 <= Ordinal(LAST)
  {
    var start := Date(9999, 12, 1);
    OrdinalMonotone(d, start);
    assert Ordinal(LAST) == Ordinal(start) + 30;
  }

  /** The run one period after `asOf`: the next day, a day of the next week, a day of the next month. */
  predicate OnePeriodLater(report: ReportType, asOf: Date, later: Date) {
    match report
    case Daily => later == NextDay(asOf)
    case Weekly => Ordinal(later) - Weekday(later) == Ordinal(asOf) - Weekday(asOf) + 7
    case Monthly => later.year * 12 + later.month == asOf.year * 12 + asOf.month + 1
  }

  /** Successive runs continue without gap: the later window starts the day after the earlier one ends. */
  lemma SuccessiveWindowsMeet(report: ReportType, asOf: Date, later: Date)
    requires ValidDate(asOf) && ValidDate(later) && OnePeriodLater(report, asOf, later)
    requires PeriodWindow(report, asOf).Some?
    ensures PeriodWindow(report, later).Some?
    ensures PeriodWindow(report, later).value.start == NextDay(PeriodWindow(report, asOf).value.end)
  {
    match report
    case Daily =>
    case Weekly => SuccessiveWeeksMeet(asOf, later);
    case Monthly => SuccessiveMonthsMeet(asOf, later);
  }

  lemma SuccessiveMonthsMeet(asOf: Date, later: Date)
    requires ValidDate(asOf) && ValidDate(later) && OnePeriodLater(Monthly, asOf, later)
    requires PeriodWindow(Monthly, asOf).Some?
    ensures PeriodWindow(Monthly, later).Some?
    ensures PeriodWindow(Monthly, later).value.start == NextDay(PeriodWindow(Monthly, asOf).value.end)
  {
    MonthlyIsPreviousMonth(asOf);
    MonthlyIsPreviousMonth(later);
  }

  lemma SuccessiveWeeksMeet(asOf: Date, later: Date)
    requires ValidDate(asOf) && ValidDate(later) && OnePeriodLater(Weekly, asOf, later)
    requires PeriodWindow(Weekly, asOf).Some?
    ensures PeriodWindow(Weekly, later).Some?
    ensures PeriodWindow(Weekly, later).value.start == NextDay(PeriodWindow(Weekly, asOf).value.end)
  {
    WeeklyIsLastFullWeek(asOf);
    WeeklyIsLastFullWeek(later);
    var end := PeriodWindow(Weekly, asOf).value.end;
    var start := PeriodWindow(Weekly, later).value.start;
    NextOrdinal(end);
    OrdinalRange(start);
    assert Ordinal(start) == Ordinal(end) + 1;
    NextYearFits(end);
    OrdinalInjective(start, NextDay(end));
  }

  // ---- Keys ----

  lemma IsoInjective(a: Date, b: Date)
    requires ValidDate(a) && ValidDate(b) && Iso(a) == Iso(b)
    ensures a == b
  {
    var s := Iso(a);
    assert s[..4] == Padded(a.year, 4) == Padded(b.year, 4);
    assert s[5..7] == Padded(a.month, 2) == Padded(b.month, 2);
    assert s[8..] == Padded(a.day, 2) == Padded(b.day, 2);
    FourDigits(a.year);
    FourDigits(b.year);
    PaddedInjective(a.year, b.year, 4);
    PaddedInjective(a.month, b.month, 2);
    PaddedInjective(a.day, b.day, 2);
  }

  lemma YearMonthInjective(a: Date, b: Date)
    requires ValidDate(a) && ValidDate(b) && YearMonth(a) == YearMonth(b)
    ensures a.year == b.year && a.month == b.month
  {
    var s := YearMonth(a);
    assert s[..4] == Padded(a.year, 4) == Padded(b.year, 4);
    assert s[5..] == Padded(a.month, 2) == Padded(b.month, 2);
    FourDigits(a.year);
    FourDigits(b.year);
    PaddedInjective(a.year, b.year, 4);
    PaddedInjective(a.month, b.month, 2);
  }

  /** A text that reads as a date in the form of ISO 8601: four, two and two digits. */
  predicate Spells(text: string, d: Date) {
    && |text| == 10 && text[4] == '-' && text[7] == '-'
    && AllDigits(text[..4]) && AllDigits(text[5..7]) && AllDigits(text[8..])
    && Value(text[..4]) == d.year && Value(text[5..7]) == d.month && Value(text[8..]) == d.day
  }

  lemma IsoSpells(d: Date)
    requires ValidDate(d)
    ensures Spells(Iso(d), d)
  {
    var s := Iso(d);
    FourDigits(d.year);
    PaddedSpells(d.year, 4);
    PaddedSpells(d.month, 2);
    PaddedSpells(d.day, 2);
    assert s[..4] == Padded(d.year, 4) && s[5..7] == Padded(d.month, 2) && s[8..] == Padded(d.day, 2);
  }

  /** Keys can be read: the date, the first and last date, or year and month of the window. */
  lemma KeySpellsWindow(report: ReportType, asOf: Date)
    requires ValidDate(asOf) && PeriodWindow(report, asOf).Some?
    ensures var w := PeriodWindow(report, asOf).value;
            match report
            case Daily => Spells(w.key, w.start)
            case Weekly =>
              |w.key| == 21 && Spells(w.key[..10], w.start) && w.key[10] == '_' && Spells(w.key[11..], w.end)
            case Monthly =>
              && |w.key| == 7 && w.key[4] == '-' && AllDigits(w.key[..4]) && AllDigits(w.key[5..])
              && Value(w.key[..4]) == w.start.year && Value(w.key[5..]) == w.start.month
  {
    var w := PeriodWindow(report, asOf).value;
    IsoSpells(w.start);
    match report
    case Daily =>
    case Weekly =>
      IsoSpells(w.end);
      assert w.key[..10] == Iso(w.start) && w.key[11..] == Iso(w.end);
    case Monthly =>
      assert w.key[..4] == Iso(w.start)[..4] && w.key[5..] == Iso(w.start)[5..7];
  }

  /** Two runs of one report type share a key exactly when they report on the same dates. */
  lemma KeysAreWindows(report: ReportType, asOf1: Date, asOf2: Date)
    requires ValidDate(asOf1) && ValidDate(asOf2)
    requires PeriodWindow(report, asOf1).Some? && PeriodWindow(report, asOf2).Some?
    ensures var w1, w2 := PeriodWindow(report, asOf1).value, PeriodWindow(report, asOf2).value;
            w1.key == w2.key <==> w1.start == w2.start && w1.end == w2.end
  {
    var w1, w2 := PeriodWindow(report, asOf1).value, PeriodWindow(report, asOf2).value;
    if w1.key == w2.key {
      match report
      case Daily =>
        IsoInjective(asOf1, asOf2);
      case Weekly =>
        assert w1.key[..10] == Iso(w1.start) == Iso(w2.start);
        assert w1.key[11..] == Iso(w1.end) == Iso(w2.end);
        IsoInjective(w1.start, w2.start);
        IsoInjective(w1.end, w2.end);
      case Monthly =>
        MonthlyIsPreviousMonth(asOf1);
        MonthlyIsPreviousMonth(asOf2);
        YearMonthInjective(w1.start, w2.start);
    }
  }

  // ---- The ledger ----

  datatype Status = Pending | Sent | Failed

  datatype Key = Key(report: ReportType, period: string, recipient: string)

  datatype Delivery = Delivery(
    reportDate: Date,
    status: Status,
    messageId: string,
    error: string,
    sentAt: Option<int>)

  /** What rendering and the mail provider make of one attempt. */
  datatype Outcome =
    | NotSent(message: string)
    | Accepted(id: string)
    | AcceptedUnread(message: string) // the provider took the mail, but its reply could not be read

  datatype Attempt = Attempt(report: ReportType, asOf: Date, recipient: string, outcome: Outcome, now: int)

  datatype Reply = WasSent | AlreadySent | Raised(message: string)

  /** `accepted` is the provider's side: every mail it took, in order. */
  datatype State = State(ledger: map<Key, Delivery>, accepted: seq<Key>)

  const EMPTY := State(map[], [])

  function Clipped(s: string): string {
    if |s| > 4000 then s[..4000] else s
  }

  predicate WellFormed(a: Attempt) {
    ValidDate(a.asOf) && PeriodWindow(a.report, a.asOf).Some?
  }

  function KeyOf(a: Attempt): Key
    requires WellFormed(a)
  {
    Key(a.report, PeriodWindow(a.report, a.asOf).value.key, a.recipient)
  }

  /** The call once its window is known: find or insert the row, try to send, record the outcome. */
  function Post(st: State, key: Key, start: Date, outcome: Outcome, now: int): (State, Reply) {
    var row := if key in st.ledger then st.ledger[key] else Delivery(start, Pending, "", "", None);
    if row.status == Sent then (st, AlreadySent) else Record(st, key, row, outcome, now)
  }

  /** What an attempt to send writes over the row found or inserted. */
  function Record(st: State, key: Key, row: Delivery, outcome: Outcome, now: int): (State, Reply) {
    match outcome
    case Accepted(id) =>
      (State(st.ledger[key := row.(status := Sent, messageId := id, error := "", sentAt := Some(now))],
             st.accepted + [key]),
       WasSent)
    case NotSent(message) =>
      (st.(ledger := st.ledger[key := row.(status := Failed, error := Clipped(message))]), Raised(message))
    case AcceptedUnread(message) =>
      (State(st.ledger[key := row.(status := Failed, error := Clipped(message))], st.accepted + [key]),
       Raised(message))
  }

  lemma RecordOverInserted(st: State, key: Key, row: Delivery, outcome: Outcome, now: int)
    ensures Record(st.(ledger := st.ledger[key := row]), key, row, outcome, now) == Record(st, key, row, outcome, now)
  {
    var written := Record(st, key, row, outcome, now).0.ledger;
    assert st.ledger[key := row][key := written[key]] == st.ledger[key := written[key]];
  }

  /** One call; a date before the first window raises before the ledger is touched. */
  function Deliver(st: State, a: Attempt): (State, Reply)
    requires ValidDate(a.asOf)
  {
    if !WellFormed(a) then (st, Raised("date value out of range"))
    else Post(st, KeyOf(a), PeriodWindow(a.report, a.asOf).value.start, a.outcome, a.now)
  }

  /** The beginning of a text, up to 4000 characters. */
  predicate IsBeginning(text: string, clipped: string) {
    clipped <= text && |clipped| == if |text| < 4000 then |text| else 4000
  }

  /** What one attempt answers and leaves in its row, found or inserted; no other row and nothing else is written. */
  ghost predicate Answers(before: State, a: Attempt, after: State, reply: Reply)
    requires WellFormed(a)
  {
    var window := PeriodWindow(a.report, a.asOf).value;
    var key := Key(a.report, window.key, a.recipient);
    var row := if key in before.ledger then before.ledger[key] else Delivery(window.start, Pending, "", "", None);
    if row.status == Sent then after == before && reply == AlreadySent
    else
      && key in after.ledger && after.ledger == before.ledger[key := after.ledger[key]]
      && var row' := after.ledger[key];
         match a.outcome
         case Accepted(id) =>
           && row' == Delivery(row.reportDate, Sent, id, "", Some(a.now))
           && after.accepted == before.accepted + [key] && reply == WasSent
         case NotSent(message) =>
           && row' == row.(status := Failed, error := row'.error) && IsBeginning(message, row'.error)
           && after.accepted == before.accepted && reply == Raised(message)
         case AcceptedUnread(message) =>
           && row' == row.(status := Failed, error := row'.error) && IsBeginning(message, row'.error)
           && after.accepted == before.accepted + [key] && reply == Raised(message)
  }

  lemma DeliverAnswers(st: State, a: Attempt)
    requires ValidDate(a.asOf)
    ensures if WellFormed(a) then Answers(st, a, Deliver(st, a).0, Deliver(st, a).1)
            else Deliver(st, a).0 == st && Deliver(st, a).1.Raised?
  {
  }

  predicate ValidDates(attempts: seq<Attempt>) {
    forall i :: 0 <= i < |attempts| ==> ValidDate(attempts[i].asOf)
  }

  function Run(attempts: seq<Attempt>): State
    requires ValidDates(attempts)
  {
    if attempts == [] then EMPTY
    else Deliver(Run(attempts[..|attempts| - 1]), attempts[|attempts| - 1]).0
  }

  /** How many of the run's calls for a key were answered "sent". */
  function SentReplies(attempts: seq<Attempt>, key: Key): nat
    requires ValidDates(attempts)
  {
    if attempts == [] then 0 else
      var init, last := attempts[..|attempts| - 1], attempts[|attempts| - 1];
      SentReplies(init, key)
      + if WellFormed(last) && KeyOf(last) == key && Deliver(Run(init), last).1 == WasSent then 1 else 0
  }

  /** How many of the run's calls for a key lost the provider's reply after it took the mail. */
  function LostReplies(attempts: seq<Attempt>, key: Key): nat
    requires ValidDates(attempts)
  {
    if attempts == [] then 0 else
      var init, last := attempts[..|attempts| - 1], attempts[|attempts| - 1];
      LostReplies(init, key)
      + if WellFormed(last) && KeyOf(last) == key && last.outcome.AcceptedUnread?
           && Deliver(Run(init), last).1 != AlreadySent then 1 else 0
  }

  predicate IsSent(st: State, key: Key) {
    key in st.ledger && st.ledger[key].status == Sent
  }

  lemma PostCounts(st: State, key: Key, start: Date, outcome: Outcome, now: int, k: Key)
    ensures var (st', reply) := Post(st, key, start, outcome, now);
            && IsSent(st', k) == (IsSent(st, k) || (k == key && reply == WasSent))
            && (k == key && reply == WasSent ==> !IsSent(st, k))
            && multiset(st'.accepted)[k]
               == multiset(st.accepted)[k]
                  + (if k == key && (reply == WasSent || (outcome.AcceptedUnread? && reply != AlreadySent))
                     then 1 else 0)
            && (reply == WasSent ==> !outcome.AcceptedUnread?)
  {
  }

  /**
    Over every run a period is answered "sent" at most once, namely exactly when its row is SENT, and the
    provider has taken its mail once for that and once more for every reply that was lost.
  */
  lemma {:induction false} SentAtMostOnce(attempts: seq<Attempt>, key: Key)
    requires ValidDates(attempts)
    ensures var st := Run(attempts);
            && SentReplies(attempts, key) == (if IsSent(st, key) then 1 else 0)
            && multiset(st.accepted)[key] == SentReplies(attempts, key) + LostReplies(attempts, key)
  {
    if attempts != [] {
      var init, last := attempts[..|attempts| - 1], attempts[|attempts| - 1];
      SentAtMostOnce(init, key);
      if WellFormed(last) {
        var start := PeriodWindow(last.report, last.asOf).value.start;
        PostCounts(Run(init), KeyOf(last), start, last.outcome, last.now, key);
      }
    }
  }

  predicate For(a: Attempt, key: Key) {
    WellFormed(a) && KeyOf(a) == key
  }

  /** Whether some attempt for a key came to an outcome of a kind. */
  predicate SomeAccepted(attempts: seq<Attempt>, key: Key) {
    exists i :: 0 <= i < |attempts| && For(attempts[i], key) && attempts[i].outcome.Accepted?
  }

  predicate SomeUnread(attempts: seq<Attempt>, key: Key) {
    exists i :: 0 <= i < |attempts| && For(attempts[i], key) && attempts[i].outcome.AcceptedUnread?
  }

  /** Attempt `i` would be taken although an earlier one lost its reply and none before it was accepted. */
  predicate Retaken(attempts: seq<Attempt>, key: Key, i: nat)
    requires i < |attempts|
  {
    && For(attempts[i], key) && !attempts[i].outcome.NotSent?
    && SomeUnread(attempts[..i], key) && !SomeAccepted(attempts[..i], key)
  }

  lemma OutcomesExtend(init: seq<Attempt>, last: Attempt, key: Key)
    ensures SomeAccepted(init + [last], key) <==> SomeAccepted(init, key) || (For(last, key) && last.outcome.Accepted?)
    ensures SomeUnread(init + [last], key)
       <==> SomeUnread(init, key) || (For(last, key) && last.outcome.AcceptedUnread?)
  {
    var all := init + [last];
    assert all[|init|] == last;
    if i :| 0 <= i < |init| && For(init[i], key) && init[i].outcome.Accepted? {
      assert all[i] == init[i];
    }
    if i :| 0 <= i < |init| && For(init[i], key) && init[i].outcome.AcceptedUnread? {
      assert all[i] == init[i];
    }
  }

  lemma DeliverCounts(st: State, a: Attempt, key: Key)
    requires ValidDate(a.asOf)
    ensures var st' := Deliver(st, a).0;
            && IsSent(st', key) == (IsSent(st, key) || (For(a, key) && a.outcome.Accepted?))
            && multiset(st'.accepted)[key]
               == multiset(st.accepted)[key] + if For(a, key) && !IsSent(st, key) && !a.outcome.NotSent? then 1 else 0
  {
    if WellFormed(a) {
      PostMoves(st, KeyOf(a), PeriodWindow(a.report, a.asOf).value.start, a.outcome, a.now, key);
    }
  }

  lemma PostMoves(st: State, key: Key, start: Date, outcome: Outcome, now: int, k: Key)
    ensures var st' := Post(st, key, start, outcome, now).0;
            && IsSent(st', k) == (IsSent(st, k) || (k == key && outcome.Accepted?))
            && multiset(st'.accepted)[k]
               == multiset(st.accepted)[k] + if k == key && !IsSent(st, k) && !outcome.NotSent? then 1 else 0
  {
  }

  /** What the attempts alone say of the row and of the provider. */
  lemma {:induction false} OutcomesDecide(attempts: seq<Attempt>, key: Key)
    requires ValidDates(attempts)
    ensures var st := Run(attempts);
            && (IsSent(st, key) <==> SomeAccepted(attempts, key))
            && (multiset(st.accepted)[key] == 0 <==> !SomeAccepted(attempts, key) && !SomeUnread(attempts, key))
  {
    if attempts != [] {
      var init, last := attempts[..|attempts| - 1], attempts[|attempts| - 1];
      assert attempts == init + [last];
      OutcomesDecide(init, key);
      OutcomesExtend(init, last, key);
      DeliverCounts(Run(init), last, key);
    }
  }

  /**
    A period's mail is taken at most once exactly when no attempt for it that the provider would take follows one
    whose reply was lost, unless one was accepted in between or before.
  */
  lemma {:induction false} MailTwiceNeedsLostReply(attempts: seq<Attempt>, key: Key)
    requires ValidDates(attempts)
    ensures multiset(Run(attempts).accepted)[key] <= 1
       <==> forall i :: 0 <= i < |attempts| ==> !Retaken(attempts, key, i)
  {
    if attempts != [] {
      var init, last := attempts[..|attempts| - 1], attempts[|attempts| - 1];
      assert attempts == init + [last];
      MailTwiceNeedsLostReply(init, key);
      OutcomesDecide(init, key);
      RetakenExtends(init, last, key);
      DeliverCounts(Run(init), last, key);
    }
  }

  lemma RetakenExtends(init: seq<Attempt>, last: Attempt, key: Key)
    ensures (forall i :: 0 <= i < |init + [last]| ==> !Retaken(init + [last], key, i))
       <==> (forall i :: 0 <= i < |init| ==> !Retaken(init, key, i))
            && !(For(last, key) && !last.outcome.NotSent? && SomeUnread(init, key) && !SomeAccepted(init, key))
  {
    var all := init + [last];
    forall i | 0 <= i < |init| ensures Retaken(all, key, i) <==> Retaken(init, key, i) {
      assert all[..i] == init[..i];
    }
    assert all[..|init|] == init;
    assert Retaken(all, key, |init|)
      <==> For(last, key) && !last.outcome.NotSent? && SomeUnread(init, key) && !SomeAccepted(init, key);
  }

  /** A retry after a lost reply mails the same period again. */
  lemma LostReplyMailsTwice(a: Attempt, id: string)
    requires WellFormed(a) && a.outcome.AcceptedUnread?
    ensures ValidDates([a, a.(outcome := Accepted(id))])
    ensures multiset(Run([a, a.(outcome := Accepted(id))]).accepted)[KeyOf(a)] == 2
  {
    var b := a.(outcome := Accepted(id));
    assert [a, b][..1] == [a] && [a][..0] == [];
    var start := PeriodWindow(a.report, a.asOf).value.start;
    assert Run([a]) == Post(EMPTY, KeyOf(a), start, a.outcome, a.now).0;
    assert Run([a, b]) == Post(Run([a]), KeyOf(a), start, b.outcome, b.now).0;
  }

  /** Once SENT, a row is never written again, and a call never touches another key's row. */
  lemma SentRowIsFrozen(attempts: seq<Attempt>, more: Attempt, key: Key)
    requires ValidDates(attempts) && ValidDate(more.asOf)
    requires key in Run(attempts).ledger
    requires IsSent(Run(attempts), key) || !WellFormed(more) || KeyOf(more) != key
    ensures var st' := Deliver(Run(attempts), more).0;
            key in st'.ledger && st'.ledger[key] == Run(attempts).ledger[key]
  {
  }

  class Ledger {
    var rows: map<Key, Delivery>
    ghost var accepted: seq<Key>

    ghost function Contents(): State
      reads this
    {
      State(rows, accepted)
    }

    constructor ()
      ensures Contents() == EMPTY
    {
      rows, accepted := map[], [];
    }

    method RecordOutcome(key: Key, outcome: Outcome, now: int) returns (reply: Reply)
      requires key in rows
      modifies this
      ensures (Contents(), reply) == Record(old(Contents()), key, old(rows)[key], outcome, now)
    {
      match outcome {
        case Accepted(id) =>
          accepted := accepted + [key];
          rows := rows[key := rows[key].(status := Sent, messageId := id, error := "", sentAt := Some(now))];
          reply := WasSent;
        case NotSent(message) =>
          rows := rows[key := rows[key].(status := Failed, error := Clipped(message))];
          reply := Raised(message);
        case AcceptedUnread(message) =>
          accepted := accepted + [key];
          rows := rows[key := rows[key].(status := Failed, error := Clipped(message))];
          reply := Raised(message);
      }
    }

    method PostReport(key: Key, start: Date, outcome: Outcome, now: int) returns (reply: Reply)
      modifies this
      ensures (Contents(), reply) == Post(old(Contents()), key, start, outcome, now)
    {
      if key !in rows {
        RecordOverInserted(Contents(), key, Delivery(start, Pending, "", "", None), outcome, now);
        rows := rows[key := Delivery(start, Pending, "", "", None)];
      }
      if rows[key].status == Sent {
        return AlreadySent;
      }
      reply := RecordOutcome(key, outcome, now);
    }

    /** `outcome` is what rendering and sending will do, should the call get that far. */
    method DeliverScheduledReport(report: ReportType, asOf: Date, recipient: string, outcome: Outcome, now: int)
      returns (reply: Reply)
      requires ValidDate(asOf)
      modifies this
      ensures (Contents(), reply) == Deliver(old(Contents()), Attempt(report, asOf, recipient, outcome, now))
      ensures var a := Attempt(report, asOf, recipient, outcome, now);
              if WellFormed(a) then Answers(old(Contents()), a, Contents(), reply)
              else Contents() == old(Contents()) && reply.Raised?
    {
      DeliverAnswers(Contents(), Attempt(report, asOf, recipient, outcome, now));
      var window := PeriodWindow(report, asOf);
      if window.None? {
        return Raised("date value out of range");
      }
      reply := PostReport(Key(report, window.value.key, recipient), window.value.start, outcome, now);
    }
  }
}
