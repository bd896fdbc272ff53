/**
  Fixed-window API throttling over an expiring cache.

  The middleware keeps no history: only a counter per identity and minute, which expires 65
  seconds after it was last written.  Here the history of admissions is kept beside it, and the
  counter is shown to tell the truth about it.
*/
module Throttle {
  import opened Wrappers
  import opened Digits

  // ---- Identities, buckets and cache keys ----

  datatype Caller = User(id: nat) | Token(digest: string) | Anonymous(address: string)

  function Identity(c: Caller): string {
    match c
    case User(id) => "user:" + Decimal(id)
    case Token(digest) => "token:" + digest
    case Anonymous(address) => "anon:" + address
  }

  function Bucket(now: real): (b: nat)
    requires now >= 0.0
    ensures 60.0 * b as real <= now < 60.0 * (b + 1) as real
  {
    (now / 60.0).Floor
  }

  const CACHE_PREFIX := "wbz:throttle"

  function CacheKey(c: Caller, bucket: nat): string {
    CACHE_PREFIX + ":" + (Identity(c) + ":" + Decimal(bucket))
  }

  lemma IdentityInjective(a: Caller, b: Caller)
    ensures Identity(a) == Identity(b) ==> a == b
  {
    var s, t := Identity(a), Identity(b);
    if s == t {
      assert s[0] == t[0];
      match a
      case User(id) => assert s[5..] == Decimal(id) && t[5..] == Decimal(b.id); DecimalInjective(id, b.id);
      case Token(digest) => assert s[6..] == digest && t[6..] == b.digest;
      case Anonymous(address) => assert s[5..] == address && t[5..] == b.address;
    }
  }

  /** A numeral holds no colon, so the last colon of a key tells identity and bucket apart. */
  lemma LastColon(a: string, x: nat, b: string, y: nat)
    requires a + ":" + Decimal(x) == b + ":" + Decimal(y)
    ensures a == b && x == y
  {
    var s := a + ":" + Decimal(x);
    assert s[|a|] == ':' && s[|b|] == ':';
    forall i | |a| < i < |s| ensures s[i] != ':' {
      assert s[i] == Decimal(x)[i - |a| - 1];
    }
    forall i | |b| < i < |s| ensures s[i] != ':' {
      assert s[i] == Decimal(y)[i - |b| - 1];
    }
    assert |a| == |b|;
    assert s[..|a|] == a && s[..|a|] == b;
    assert s[|a| + 1..] == Decimal(x) && s[|a| + 1..] == Decimal(y);
    DecimalInjective(x, y);
  }

  lemma SamePrefix(p: string, s: string, t: string)
    requires p + s == p + t
    ensures s == t
  {
    assert (p + s)[|p|..] == s && (p + t)[|p|..] == t;
  }

  /** No two identities or buckets share a counter, whatever the identities contain. */
  lemma CacheKeyInjective(a: Caller, x: nat, b: Caller, y: nat)
    requires CacheKey(a, x) == CacheKey(b, y)
    ensures a == b && x == y
  {
    SamePrefix(CACHE_PREFIX + ":", Identity(a) + ":" + Decimal(x), Identity(b) + ":" + Decimal(y));
    LastColon(Identity(a), x, Identity(b), y);
    IdentityInjective(a, b);
  }

  // ---- Rates ----

  predicate StartsWith(s: string, prefix: string) {
    prefix <= s
  }

  /** The limit of a rate already split at its slash; `None` stands for text that does not parse. */
  function Limit(rate: Option<(int, string)>): (limit: Option<nat>)
    ensures limit.None? <==> rate.None?
    ensures limit.Some? ==> limit.value >= 1
    ensures limit.Some? && rate.value.0 >= 1 ==>
              limit.value == rate.value.0 * if |rate.value.1| >= 3 && rate.value.1[..3] == "sec" then 60 else 1
    ensures limit.Some? && rate.value.0 < 1 ==> limit.value == 1
  {
    match rate
    case None => None
    case Some((amount, unit)) =>
      assert StartsWith(unit, "min") ==> unit[0] == 'm';
      assert StartsWith(unit, "sec") ==> unit[0] == 's';
      var perMinute := amount * if StartsWith(unit, "min") then 1 else if StartsWith(unit, "sec") then 60 else 1;
      Some(if perMinute > 1 then perMinute else 1)
  }

  datatype Rates = Rates(authenticated: Option<(int, string)>, anonymous: Option<(int, string)>)

  function LimitFor(rates: Rates, c: Caller): (limit: Option<nat>)
    ensures limit.Some? ==> limit.value >= 1
    ensures match c
            case User(_) => limit == Limit(rates.authenticated)
            case Token(_) => limit == Limit(rates.authenticated)
            case Anonymous(_) => limit == Limit(rates.anonymous)
  {
    Limit(if c.Anonymous? then rates.anonymous else rates.authenticated)
  }

  // ---- One request ----

  datatype Entry = Entry(count: nat, expires: real)

  datatype Admission = Admission(caller: Caller, time: real)

  type Cache = map<string, Entry>

  datatype State = State(cache: Cache, admitted: seq<Admission>)

  const EMPTY := State(map[], [])

  const TTL := 65.0

  function Lookup(cache: Cache, key: string, now: real): nat {
    if key in cache && now < cache[key].expires then cache[key].count else 0
  }

  /** The state after a request, and whether it was let through. */
  function Request(rates: Rates, st: State, c: Caller, now: real): (State, bool)
    requires now >= 0.0
  {
    var limit := LimitFor(rates, c);
    if limit.None? then (st, true)
    else
      var key := CacheKey(c, Bucket(now));
      var count := Lookup(st.cache, key, now);
      if count >= limit.value then (st, false)
      else (State(st.cache[key := Entry(count + 1, now + TTL)], st.admitted + [Admission(c, now)]), true)
  }

  /** The clock of a run never goes back; so an entry that has expired stays expired. */
  predicate Forward(requests: seq<(Caller, real)>) {
    && (forall i :: 0 <= i < |requests| ==> requests[i].1 >= 0.0)
    && (forall i, j :: 0 <= i < j < |requests| ==> requests[i].1 <= requests[j].1)
  }

  /** A moment at or after the last request of a run. */
  predicate NotBefore(now: real, requests: seq<(Caller, real)>) {
    now >= 0.0 && forall i :: 0 <= i < |requests| ==> requests[i].1 <= now
  }

  function Run(rates: Rates, requests: seq<(Caller, real)>): State
    requires Forward(requests)
  {
    if requests == [] then EMPTY else
      var (c, now) := requests[|requests| - 1];
      Request(rates, Run(rates, requests[..|requests| - 1]), c, now).0
  }

  // ---- The counter tells the truth ----

  /** Counted admissions of one caller: those of a bucket, or those in a span of time. */
  function InBucket(admitted: seq<Admission>, c: Caller, bucket: nat): nat {
    if admitted == [] then 0 else
      var a := admitted[|admitted| - 1];
      InBucket(admitted[..|admitted| - 1], c, bucket)
      + if a.caller == c && a.time >= 0.0 && Bucket(a.time) == bucket then 1 else 0
  }

  function InSpan(admitted: seq<Admission>, c: Caller, from: real, until: real): nat {
    if admitted == [] then 0 else
      var a := admitted[|admitted| - 1];
      InSpan(admitted[..|admitted| - 1], c, from, until) + if a.caller == c && from <= a.time < until then 1 else 0
  }

  /** The counter of a caller and bucket holds its admissions and outlives the bucket. */
  ghost predicate Counts(st: State, c: Caller, bucket: nat) {
    var key := CacheKey(c, bucket);
    var n := InBucket(st.admitted, c, bucket);
    && (key in st.cache <==> n > 0)
    && (key in st.cache ==> st.cache[key].count == n && st.cache[key].expires >= 60.0 * (bucket + 1) as real)
  }

  ghost predicate Truthful(rates: Rates, st: State) {
    && (forall i :: 0 <= i < |st.admitted| ==> st.admitted[i].time >= 0.0)
    && (forall c: Caller, bucket: nat :: Counts(st, c, bucket))
    && (forall c: Caller, bucket: nat :: LimitFor(rates, c).Some? ==>
          InBucket(st.admitted, c, bucket) <= LimitFor(rates, c).value)
  }

  /** At any moment of a bucket the cache answers with the admissions of that bucket: no live count expires. */
  lemma LookupCountsAdmissions(rates: Rates, st: State, c: Caller, now: real)
    requires Truthful(rates, st) && now >= 0.0
    ensures Lookup(st.cache, CacheKey(c, Bucket(now)), now) == InBucket(st.admitted, c, Bucket(now))
  {
    assert Counts(st, c, Bucket(now));
  }

  /** A request changes nothing, or counts one admission more, below the limit. */
  lemma RequestWrites(rates: Rates, st: State, c: Caller, now: real)
    requires Truthful(rates, st) && now >= 0.0
    ensures var n, st' := InBucket(st.admitted, c, Bucket(now)), Request(rates, st, c, now).0;
            || st' == st
            || (LimitFor(rates, c).Some? && n < LimitFor(rates, c).value && st' == Counted(st, c, now, n))
  {
    LookupCountsAdmissions(rates, st, c, now);
  }

  function Counted(st: State, c: Caller, now: real, n: nat): State
    requires now >= 0.0
  {
    State(st.cache[CacheKey(c, Bucket(now)) := Entry(n + 1, now + TTL)], st.admitted + [Admission(c, now)])
  }

  lemma RequestKeepsCounts(rates: Rates, st: State, c: Caller, now: real, other: Caller, bucket: nat)
    requires Truthful(rates, st) && now >= 0.0
    ensures var st' := Request(rates, st, c, now).0;
            && Counts(st', other, bucket)
            && (LimitFor(rates, other).Some? ==>
                  InBucket(st'.admitted, other, bucket) <= LimitFor(rates, other).value)
  {
    assert Counts(st, other, bucket);
    RequestWrites(rates, st, c, now);
    CounterMoves(st, c, now, Bucket(now), other, bucket);
  }

  /** Writing one counter: that caller's bucket counts one more, every other counter stays. */
  lemma CounterMoves(st: State, c: Caller, now: real, b: nat, other: Caller, bucket: nat)
    requires now >= 0.0 && b == Bucket(now) && Counts(st, other, bucket)
    ensures var n := InBucket(st.admitted, c, b);
            var st' := Counted(st, c, now, n);
            && Counts(st', other, bucket)
            && InBucket(st'.admitted, other, bucket)
               == InBucket(st.admitted, other, bucket) + if other == c && bucket == b then 1 else 0
  {
    OneMoreAdmission(st.admitted, Admission(c, now), other, bucket, 0.0, 0.0);
    if CacheKey(c, b) == CacheKey(other, bucket) {
      CacheKeyInjective(c, b, other, bucket);
    }
  }

  lemma RequestKeepsTruthful(rates: Rates, st: State, c: Caller, now: real)
    requires Truthful(rates, st) && now >= 0.0
    ensures Truthful(rates, Request(rates, st, c, now).0)
  {
    forall other: Caller, bucket: nat
      ensures var st' := Request(rates, st, c, now).0;
              && Counts(st', other, bucket)
              && (LimitFor(rates, other).Some? ==>
                    InBucket(st'.admitted, other, bucket) <= LimitFor(rates, other).value)
    {
      RequestKeepsCounts(rates, st, c, now, other, bucket);
    }
  }

  lemma {:induction false} RunKeepsTruthful(rates: Rates, requests: seq<(Caller, real)>)
    requires Forward(requests)
    ensures Truthful(rates, Run(rates, requests))
  {
    if requests != [] {
      var init, last := requests[..|requests| - 1], requests[|requests| - 1];
      RunKeepsTruthful(rates, init);
      RequestKeepsTruthful(rates, Run(rates, init), last.0, last.1);
    }
  }

  lemma RefusedAtLimit(rates: Rates, st: State, c: Caller, now: real)
    requires Truthful(rates, st) && now >= 0.0
    ensures !Request(rates, st, c, now).1
       <==> LimitFor(rates, c).Some? && InBucket(st.admitted, c, Bucket(now)) == LimitFor(rates, c).value
  {
    LookupCountsAdmissions(rates, st, c, now);
  }

  /**
    A request is refused exactly when its caller has a limit and as many admissions in the current minute.  One let
    through under a limit is counted, for 65 seconds from now; any other writes nothing.
  */
  ghost predicate Served(rates: Rates, before: State, c: Caller, now: real, after: State, through: bool)
    requires now >= 0.0
  {
    var limit, bucket := LimitFor(rates, c), Bucket(now);
    && (!through <==> limit.Some? && InBucket(before.admitted, c, bucket) == limit.value)
    && if through && limit.Some? then
         var key := CacheKey(c, bucket);
         && after.admitted == before.admitted + [Admission(c, now)]
         && key in after.cache && after.cache == before.cache[key := after.cache[key]]
         && after.cache[key].expires == now + 65.0
       else after == before
  }

  lemma RequestServes(rates: Rates, st: State, c: Caller, now: real)
    requires Truthful(rates, st) && now >= 0.0
    ensures Truthful(rates, Request(rates, st, c, now).0)
    ensures Served(rates, st, c, now, Request(rates, st, c, now).0, Request(rates, st, c, now).1)
  {
    RequestKeepsTruthful(rates, st, c, now);
    RefusedAtLimit(rates, st, c, now);
  }

  /**
    After any run a request is refused exactly when its caller has a limit and as many admissions in the current
    minute; the counter never says anything else, for no caller.
  */
  lemma RefusedExactlyAtLimit(rates: Rates, requests: seq<(Caller, real)>, c: Caller, now: real)
    requires Forward(requests) && NotBefore(now, requests)
    ensures var st := Run(rates, requests);
            && Lookup(st.cache, CacheKey(c, Bucket(now)), now) == InBucket(st.admitted, c, Bucket(now))
            && (!Request(rates, st, c, now).1
                <==> LimitFor(rates, c).Some? && InBucket(st.admitted, c, Bucket(now)) == LimitFor(rates, c).value)
  {
    RunKeepsTruthful(rates, requests);
    LookupCountsAdmissions(rates, Run(rates, requests), c, now);
    RefusedAtLimit(rates, Run(rates, requests), c, now);
  }

  // ---- Sliding windows ----

  lemma {:induction false} SpanMeetsTwoBuckets(admitted: seq<Admission>, c: Caller, from: real)
    requires from >= 0.0
    ensures InSpan(admitted, c, from, from + 60.0)
            <= InBucket(admitted, c, Bucket(from)) + InBucket(admitted, c, Bucket(from) + 1)
  {
    if admitted != [] {
      SpanMeetsTwoBuckets(admitted[..|admitted| - 1], c, from);
    }
  }

  /** Any 60 seconds let at most twice the limit through. */
  lemma AtMostTwiceTheLimit(rates: Rates, requests: seq<(Caller, real)>, c: Caller, from: real)
    requires Forward(requests) && from >= 0.0 && LimitFor(rates, c).Some?
    ensures InSpan(Run(rates, requests).admitted, c, from, from + 60.0) <= 2 * LimitFor(rates, c).value
  {
    RunKeepsTruthful(rates, requests);
    SpanMeetsTwoBuckets(Run(rates, requests).admitted, c, from);
  }

  lemma OneMoreAdmission(admitted: seq<Admission>, a: Admission, c: Caller, bucket: nat, from: real, until: real)
    ensures InBucket(admitted + [a], c, bucket)
            == InBucket(admitted, c, bucket)
               + if a.caller == c && a.time >= 0.0 && Bucket(a.time) == bucket then 1 else 0
    ensures InSpan(admitted + [a], c, from, until)
            == InSpan(admitted, c, from, until) + if a.caller == c && from <= a.time < until then 1 else 0
  {
    assert (admitted + [a])[..|admitted|] == admitted;
  }

  lemma RequestBelowLimit(rates: Rates, st: State, c: Caller, now: real)
    requires Truthful(rates, st) && now >= 0.0 && LimitFor(rates, c).Some?
    requires InBucket(st.admitted, c, Bucket(now)) < LimitFor(rates, c).value
    ensures Request(rates, st, c, now).0.admitted == st.admitted + [Admission(c, now)]
  {
    LookupCountsAdmissions(rates, st, c, now);
  }

  function Copies<T>(x: T, n: nat): (s: seq<T>)
    ensures |s| == n && forall i :: 0 <= i < n ==> s[i] == x
  {
    seq(n, i => x)
  }

  lemma OneCopyMore<T>(s: seq<T>, x: T, n: nat)
    requires n > 0
    ensures s + Copies(x, n) == (s + Copies(x, n - 1)) + [x]
  {
  }

  /** What `n` equal admissions add to a bucket and to a span. */
  lemma {:induction false} CopiesAdd(admitted: seq<Admission>, a: Admission, n: nat, c: Caller, bucket: nat,
                                     from: real, until: real)
    requires a.caller == c && a.time >= 0.0 && from <= a.time < until
    ensures InBucket(admitted + Copies(a, n), c, bucket)
            == InBucket(admitted, c, bucket) + if Bucket(a.time) == bucket then n else 0
    ensures InSpan(admitted + Copies(a, n), c, from, until) == InSpan(admitted, c, from, until) + n
  {
    if n == 0 {
      assert admitted + Copies(a, n) == admitted;
    } else {
      CopiesAdd(admitted, a, n - 1, c, bucket, from, until);
      OneMoreAdmission(admitted + Copies(a, n - 1), a, c, bucket, from, until);
      OneCopyMore(admitted, a, n);
    }
  }

  /** A request below the limit is let through. */
  lemma RunOneMore(rates: Rates, requests: seq<(Caller, real)>, c: Caller, now: real)
    requires Forward(requests) && NotBefore(now, requests) && LimitFor(rates, c).Some?
    requires InBucket(Run(rates, requests).admitted, c, Bucket(now)) < LimitFor(rates, c).value
    ensures Forward(requests + [(c, now)])
    ensures Run(rates, requests + [(c, now)]).admitted == Run(rates, requests).admitted + [Admission(c, now)]
  {
    RunKeepsTruthful(rates, requests);
    RequestBelowLimit(rates, Run(rates, requests), c, now);
    assert (requests + [(c, now)])[..|requests|] == requests;
  }

  /** Up to the limit, all of a caller's requests at one moment are let through. */
  lemma {:induction false} RunRepeats(rates: Rates, requests: seq<(Caller, real)>, c: Caller, now: real, n: nat)
    requires Forward(requests) && NotBefore(now, requests) && LimitFor(rates, c).Some?
    requires InBucket(Run(rates, requests).admitted, c, Bucket(now)) + n <= LimitFor(rates, c).value
    ensures Forward(requests + Copies((c, now), n)) && NotBefore(now, requests + Copies((c, now), n))
    ensures Run(rates, requests + Copies((c, now), n)).admitted
            == Run(rates, requests).admitted + Copies(Admission(c, now), n)
  {
    if n == 0 {
      assert requests + Copies((c, now), n) == requests;
    } else {
      RunRepeats(rates, requests, c, now, n - 1);
      OneCopyMore(requests, (c, now), n);
      RepeatOnce(rates, Run(rates, requests).admitted, requests + Copies((c, now), n - 1), c, now, n);
    }
  }

  lemma RepeatOnce(rates: Rates, start: seq<Admission>, requests: seq<(Caller, real)>, c: Caller, now: real, n: nat)
    requires Forward(requests) && NotBefore(now, requests) && LimitFor(rates, c).Some? && n > 0
    requires Run(rates, requests).admitted == start + Copies(Admission(c, now), n - 1)
    requires InBucket(start, c, Bucket(now)) + n <= LimitFor(rates, c).value
    ensures Forward(requests + [(c, now)]) && NotBefore(now, requests + [(c, now)])
    ensures Run(rates, requests + [(c, now)]).admitted == start + Copies(Admission(c, now), n)
  {
    CopiesAdd(start, Admission(c, now), n - 1, c, Bucket(now), now, now + 1.0);
    OneCopyMore(start, Admission(c, now), n);
    RunOneMore(rates, requests, c, now);
  }

  lemma Burst(rates: Rates, requests: seq<(Caller, real)>, c: Caller, now: real, n: nat, bucket: nat,
              from: real, until: real)
    requires Forward(requests) && NotBefore(now, requests) && from <= now < until && bucket != Bucket(now)
    requires LimitFor(rates, c).Some? && n <= LimitFor(rates, c).value
    requires InBucket(Run(rates, requests).admitted, c, Bucket(now)) == 0
    ensures Forward(requests + Copies((c, now), n)) && NotBefore(now, requests + Copies((c, now), n))
    ensures var before, after := Run(rates, requests).admitted, Run(rates, requests + Copies((c, now), n)).admitted;
            && InBucket(after, c, bucket) == InBucket(before, c, bucket)
            && InSpan(after, c, from, until) == InSpan(before, c, from, until) + n
  {
    RunRepeats(rates, requests, c, now, n);
    CopiesAdd(Run(rates, requests).admitted, Admission(c, now), n, c, bucket, from, until);
  }

  lemma TwoBursts(rates: Rates, start: seq<(Caller, real)>, c: Caller, t1: real, t2: real, n: nat, until: real)
    requires LimitFor(rates, c).Some? && n <= LimitFor(rates, c).value && Forward(start) && NotBefore(t1, start)
    requires 0.0 <= t1 <= t2 < until && Bucket(t2) != Bucket(t1)
    requires InBucket(Run(rates, start).admitted, c, Bucket(t1)) == 0
    requires InBucket(Run(rates, start).admitted, c, Bucket(t2)) == 0
    ensures var requests := start + Copies((c, t1), n) + Copies((c, t2), n);
            && Forward(requests)
            && InSpan(Run(rates, requests).admitted, c, t1, until)
               == InSpan(Run(rates, start).admitted, c, t1, until) + 2 * n
  {
    Burst(rates, start, c, t1, n, Bucket(t2), t1, until);
    Burst(rates, start + Copies((c, t1), n), c, t2, n, Bucket(t1), t1, until);
  }

  /** And the bound is met: the full limit just before a minute ends, and again as the next begins. */
  lemma TwiceTheLimitHappens(rates: Rates, c: Caller, t1: real, t2: real)
    requires LimitFor(rates, c).Some? && 0.0 <= t1 <= t2 < t1 + 60.0 && Bucket(t2) == Bucket(t1) + 1
    ensures var limit := LimitFor(rates, c).value;
            var requests := Copies((c, t1), limit) + Copies((c, t2), limit);
            Forward(requests) && InSpan(Run(rates, requests).admitted, c, t1, t1 + 60.0) == 2 * limit
  {
    var limit, start: seq<(Caller, real)> := LimitFor(rates, c).value, [];
    TwoBursts(rates, start, c, t1, t2, limit, t1 + 60.0);
    assert start + Copies((c, t1), limit) == Copies((c, t1), limit);
  }

  /** A window that starts with a clock minute is that minute's bucket. */
  lemma {:induction false} AlignedSpanIsBucket(admitted: seq<Admission>, c: Caller, from: real)
    requires from >= 0.0 && from == 60.0 * Bucket(from) as real
    ensures InSpan(admitted, c, from, from + 60.0) == InBucket(admitted, c, Bucket(from))
  {
    if admitted != [] {
      AlignedSpanIsBucket(admitted[..|admitted| - 1], c, from);
    }
  }

  /** Within the limit in every run: what the rate's wording promises of the 60 seconds from a moment on. */
  ghost predicate KeepsLimit(rates: Rates, c: Caller, from: real)
    requires LimitFor(rates, c).Some?
  {
    forall requests :: Forward(requests) ==>
      InSpan(Run(rates, requests).admitted, c, from, from + 60.0) <= LimitFor(rates, c).value
  }

  /** A 60-second window keeps the limit in every run exactly when it starts with a clock minute. */
  lemma WindowKeepsLimitWhenAligned(rates: Rates, c: Caller, from: real)
    requires from >= 0.0 && LimitFor(rates, c).Some?
    ensures KeepsLimit(rates, c, from) <==> from == 60.0 * Bucket(from) as real
  {
    if from == 60.0 * Bucket(from) as real {
      forall requests | Forward(requests)
        ensures InSpan(Run(rates, requests).admitted, c, from, from + 60.0) <= LimitFor(rates, c).value
      {
        RunKeepsTruthful(rates, requests);
        AlignedSpanIsBucket(Run(rates, requests).admitted, c, from);
      }
    } else {
      NextMinute(from);
      TwiceTheLimitHappens(rates, c, from, 60.0 * (Bucket(from) + 1) as real);
    }
  }

  lemma NextMinute(from: real)
    requires from >= 0.0 && from != 60.0 * Bucket(from) as real
    ensures var next := 60.0 * (Bucket(from) + 1) as real;
            from <= next < from + 60.0 && Bucket(next) == Bucket(from) + 1
  {
  }

  class Middleware {
    const rates: Rates
    var cache: Cache
    ghost var admitted: seq<Admission>

    ghost function Seen(): State
      reads this
    {
      State(cache, admitted)
    }

    constructor (rates: Rates)
      ensures this.rates == rates && Seen() == EMPTY && Truthful(rates, Seen())
    {
      this.rates := rates;
      cache, admitted := map[], [];
    }

    /** One request to a throttled path, no earlier than the last; `true` lets it through, `false` is the 429 answer. */
    method Call(c: Caller, now: real) returns (through: bool)
      requires Truthful(rates, Seen()) && now >= 0.0
      modifies this
      ensures Truthful(rates, Seen())
      ensures (Seen(), through) == Request(rates, old(Seen()), c, now)
      ensures Served(rates, old(Seen()), c, now, Seen(), through)
    {
      RequestServes(rates, Seen(), c, now);
      through := Serve(c, now);
    }

    method Serve(c: Caller, now: real) returns (through: bool)
      requires now >= 0.0
      modifies this
      ensures (Seen(), through) == Request(rates, old(Seen()), c, now)
    {
      var limit := LimitFor(rates, c);
      if limit.None? {
        return true;
      }
      var key := CacheKey(c, Bucket(now));
      var count := Lookup(cache, key, now);
      if count >= limit.value {
        return false;
      }
      cache := cache[key := Entry(count + 1, now + TTL)];
      admitted := admitted + [Admission(c, now)];
      return true;
    }
  }
}
