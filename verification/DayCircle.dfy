/**
  The 1440-minute clock on which area schedules live.

  A span is given by a start and an end time; `end <= start` wraps past midnight and
  `end == start` covers the whole day.  `SpansOverlap` is the service's two-point test;
  `Arc` is what a span means: the set of minutes it occupies, walked one minute at a time.
*/
module DayCircle {

  const MINUTES_PER_DAY := 1440

  datatype RawTime = Time(hour: int, minute: int)
  type Time = t: RawTime | 0 <= t.hour < 24 && 0 <= t.minute < 60 witness Time(0, 0)

  function Minutes(t: Time): (m: int)
    ensures 0 <= m < MINUTES_PER_DAY
  {
    t.hour * 60 + t.minute
  }

  /** Hour and minute can be told from the minute of the day. */
  lemma MinutesTell(t: Time)
    ensures Minutes(t) / 60 == t.hour && Minutes(t) % 60 == t.minute
  {
  }

  function Duration(start: Time, end: Time): (d: int)
    ensures 1 <= d <= MINUTES_PER_DAY
    ensures (Minutes(start) + d - Minutes(end)) % MINUTES_PER_DAY == 0
  {
    var d := Minutes(end) - Minutes(start);
    if d <= 0 then d + MINUTES_PER_DAY else d
  }

  predicate Contains(start: Time, end: Time, point: int) {
    (point - Minutes(start)) % MINUTES_PER_DAY < Duration(start, end)
  }

  predicate SpansOverlap(start1: Time, end1: Time, start2: Time, end2: Time) {
    || Contains(start1, end1, Minutes(start2))
    || Contains(start2, end2, Minutes(start1))
  }

  /** The minute of the clock reached `k` minutes after `start`. */
  function Tick(start: Time, k: int): (m: int)
    ensures 0 <= m < MINUTES_PER_DAY
  {
    (Minutes(start) + k) % MINUTES_PER_DAY
  }

  /** The minutes of the clock passed in the first `n` minutes after `start`. */
  ghost function Walk(start: Time, n: nat): set<int> {
    set k | 0 <= k < n :: Tick(start, k)
  }

  ghost function Arc(start: Time, end: Time): set<int> {
    Walk(start, Duration(start, end))
  }

  /** `%` on the clock without division: one lap is added or removed. */
  lemma ModOnce(x: int)
    requires -MINUTES_PER_DAY <= x < 2 * MINUTES_PER_DAY
    ensures x % MINUTES_PER_DAY ==
            if x < 0 then x + MINUTES_PER_DAY else if x < MINUTES_PER_DAY then x else x - MINUTES_PER_DAY
  {
  }

  lemma TickInverse(start: Time, m: int, j: int)
    requires 0 <= m < MINUTES_PER_DAY && 0 <= j < MINUTES_PER_DAY
    ensures Tick(start, j) == m <==> j == (m - Minutes(start)) % MINUTES_PER_DAY
  {
    ModOnce(Minutes(start) + j);
    ModOnce(m - Minutes(start));
  }

  lemma ContainsIsMembership(start: Time, end: Time, m: int)
    requires 0 <= m < MINUTES_PER_DAY
    ensures Contains(start, end, m) <==> m in Arc(start, end)
  {
    var k := (m - Minutes(start)) % MINUTES_PER_DAY;
    TickInverse(start, m, k);
    assert k < Duration(start, end) ==> Tick(start, k) in Arc(start, end);
    if m in Arc(start, end) {
      var j :| 0 <= j < Duration(start, end) && Tick(start, j) == m;
      TickInverse(start, m, j);
    }
  }

  /** The two-point test decides whether two spans share a minute, wraps and whole days included. */
  lemma OverlapIsSharedMinute(start1: Time, end1: Time, start2: Time, end2: Time)
    ensures SpansOverlap(start1, end1, start2, end2) <==> !(Arc(start1, end1) !! Arc(start2, end2))
  {
    var s1, s2 := Minutes(start1), Minutes(start2);
    ContainsByLap(start1, end1, s1);
    ContainsByLap(start2, end2, s2);
    ContainsIsMembership(start1, end1, s1);
    ContainsIsMembership(start1, end1, s2);
    ContainsIsMembership(start2, end2, s1);
    ContainsIsMembership(start2, end2, s2);
    if m :| m in Arc(start1, end1) && m in Arc(start2, end2) {
      ContainsIsMembership(start1, end1, m);
      ContainsIsMembership(start2, end2, m);
      SharedMinuteGivesOverlap(start1, end1, start2, end2, m);
    }
  }

  lemma SharedMinuteGivesOverlap(start1: Time, end1: Time, start2: Time, end2: Time, m: int)
    requires 0 <= m < MINUTES_PER_DAY
    requires Contains(start1, end1, m) && Contains(start2, end2, m)
    ensures SpansOverlap(start1, end1, start2, end2)
  {
    ContainsByLap(start1, end1, m);
    ContainsByLap(start2, end2, m);
    ContainsByLap(start1, end1, Minutes(start2));
    ContainsByLap(start2, end2, Minutes(start1));
  }

  lemma ContainsByLap(start: Time, end: Time, m: int)
    requires 0 <= m < MINUTES_PER_DAY
    ensures var s, d := Minutes(start), Duration(start, end);
            Contains(start, end, m) <==> (if s <= m then m < s + d else m + MINUTES_PER_DAY < s + d)
  {
    ModOnce(m - Minutes(start));
  }

  lemma WalkSize(start: Time, n: nat)
    requires n <= MINUTES_PER_DAY
    ensures |Walk(start, n)| == n
  {
    if n > 0 {
      WalkSize(start, n - 1);
      var m := Tick(start, n - 1);
      TickInverse(start, m, n - 1);
      forall j | 0 <= j < n - 1 ensures Tick(start, j) != m {
        TickInverse(start, m, j);
      }
      assert Walk(start, n) == Walk(start, n - 1) + {m};
    }
  }

  /** A span occupies exactly as many clock minutes as it lasts. */
  lemma ArcSize(start: Time, end: Time)
    ensures |Arc(start, end)| == Duration(start, end)
  {
    WalkSize(start, Duration(start, end));
  }

  /** Once around from any minute passes every minute of the clock. */
  lemma OnceAround(from: Time, m: int)
    requires 0 <= m < MINUTES_PER_DAY
    ensures m in Walk(from, MINUTES_PER_DAY)
  {
    var k := (m - Minutes(from)) % MINUTES_PER_DAY;
    ModOnce(m - Minutes(from));
    ModOnce(Minutes(from) + k);
    assert Tick(from, k) == m;
  }

  /** Two dated spans occupy a common minute of absolute time (dates count days). */
  ghost predicate CollideInTime(date1: int, start1: Time, end1: Time, date2: int, start2: Time, end2: Time) {
    exists t :: InSpan(t, date1, start1, end1) && InSpan(t, date2, start2, end2)
  }

  ghost predicate InSpan(t: int, date: int, start: Time, end: Time) {
    0 <= t - (date * MINUTES_PER_DAY + Minutes(start)) < Duration(start, end)
  }

  predicate CrossesMidnight(start: Time, end: Time) {
    Minutes(end) <= Minutes(start)
  }

  /** A collision in absolute time, computed from the four end points. */
  lemma CollideByEndpoints(date1: int, start1: Time, end1: Time, date2: int, start2: Time, end2: Time)
    ensures CollideInTime(date1, start1, end1, date2, start2, end2)
       <==> var a1, a2 := date1 * MINUTES_PER_DAY + Minutes(start1), date2 * MINUTES_PER_DAY + Minutes(start2);
            a1 < a2 + Duration(start2, end2) && a2 < a1 + Duration(start1, end1)
  {
    var a1, a2 := date1 * MINUTES_PER_DAY + Minutes(start1), date2 * MINUTES_PER_DAY + Minutes(start2);
    if a1 < a2 + Duration(start2, end2) && a2 < a1 + Duration(start1, end1) {
      var t := if a1 <= a2 then a2 else a1;
      assert InSpan(t, date1, start1, end1) && InSpan(t, date2, start2, end2);
    }
  }

  /**
    What the clock test means on one date: the spans collide that day, or one of them
    would collide with the other worked again the day after.
  */
  lemma OverlapIsCollisionOfRepeatedDay(date: int, start1: Time, end1: Time, start2: Time, end2: Time)
    ensures SpansOverlap(start1, end1, start2, end2)
       <==> || CollideInTime(date, start1, end1, date, start2, end2)
            || CollideInTime(date, start1, end1, date + 1, start2, end2)
            || CollideInTime(date, start2, end2, date + 1, start1, end1)
  {
    CollideByEndpoints(date, start1, end1, date, start2, end2);
    CollideByEndpoints(date, start1, end1, date + 1, start2, end2);
    CollideByEndpoints(date, start2, end2, date + 1, start1, end1);
    ContainsByLap(start1, end1, Minutes(start2));
    ContainsByLap(start2, end2, Minutes(start1));
  }

  /** Across dates a collision needs an overnight span whose tail runs into the next morning's start. */
  lemma CollisionAcrossDates(date1: int, start1: Time, end1: Time, date2: int, start2: Time, end2: Time)
    requires date1 < date2
    ensures CollideInTime(date1, start1, end1, date2, start2, end2)
       <==> date2 == date1 + 1 && CrossesMidnight(start1, end1) && Minutes(start2) < Minutes(end1)
  {
    CollideByEndpoints(date1, start1, end1, date2, start2, end2);
    if date2 >= date1 + 2 {
      assert date2 * MINUTES_PER_DAY >= date1 * MINUTES_PER_DAY + 2 * MINUTES_PER_DAY;
    }
  }
}
