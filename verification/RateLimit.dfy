/**
  The sliding-window limiter (app/rate_limit.py) with the hourly sweep of old hits
  (app/scheduler.py).  Times are microseconds; windows and retry times are seconds.
*/
module RateLimit {
  import opened Wrappers

  const SECOND := 1_000_000

  const HOUR := 3600 * SECOND

  /** The stored hits, per key, in the order they were stored. */
  type Store = map<string, seq<int>>

  function HitsOf(store: Store, key: string): seq<int> {
    if key in store then store[key] else []
  }

  // ---------------------------------------------------------------- one key

  /** `count` of the window query: the hits at `from` or later. */
  function CountFrom(hits: seq<int>, from: int): nat {
    if hits == [] then 0 else CountFrom(hits[..|hits| - 1], from) + if hits[|hits| - 1] >= from then 1 else 0
  }

  /** `min` of the window query. */
  function OldestFrom(hits: seq<int>, from: int): (r: Option<int>)
    ensures r.Some? ==> r.value in hits && r.value >= from && forall h | h in hits && h >= from :: h >= r.value
    ensures r.None? ==> forall h | h in hits :: h < from
  {
    if hits == [] then None
    else
      var rest, last := OldestFrom(hits[..|hits| - 1], from), hits[|hits| - 1];
      assert hits == hits[..|hits| - 1] + [last];
      if last < from then rest
      else if rest.Some? && rest.value <= last then rest else Some(last)
  }

  /** Seconds, rounded up. */
  function CeilSeconds(us: int): (s: int)
    ensures (s - 1) * SECOND < us <= s * SECOND
  {
    (us + SECOND - 1) / SECOND
  }

  function RetryAfter(oldest: Option<int>, window: nat, now: int): (r: int)
    ensures r >= 1
    ensures oldest.Some? ==> now + r * SECOND >= oldest.value + window * SECOND
    ensures r > 1 ==> oldest.Some? && now + (r - 1) * SECOND < oldest.value + window * SECOND
  {
    if oldest.None? then 1
    else
      var s := CeilSeconds(window * SECOND - (now - oldest.value));
      if s < 1 then 1 else s
  }

  predicate Admits(hits: seq<int>, limit: int, window: nat, now: int) {
    limit <= 0 || CountFrom(hits, now - window * SECOND) < limit
  }

  ghost function InWindow(hits: seq<int>, from: int): set<int> {
    set i | 0 <= i < |hits| && hits[i] >= from
  }

  lemma {:induction false} CountIs(hits: seq<int>, from: int)
    ensures CountFrom(hits, from) == |InWindow(hits, from)|
    decreases |hits|
  {
    if hits == [] {
      assert InWindow(hits, from) == {};
    } else {
      var n := |hits| - 1;
      CountIs(hits[..n], from);
      assert InWindow(hits, from) == InWindow(hits[..n], from) + if hits[n] >= from then {n} else {};
    }
  }

  /** A call is admitted exactly when there is no limit or fewer hits than that stand in the window that ends now, its first instant included. */
  lemma AdmittedIff(hits: seq<int>, limit: int, window: nat, now: int)
    ensures Admits(hits, limit, window, now) <==> limit <= 0 || |InWindow(hits, now - window * SECOND)| < limit
  {
    CountIs(hits, now - window * SECOND);
  }

  /** What a sweep at `now` keeps. */
  function Recent(hits: seq<int>, now: int): seq<int> {
    if hits == [] then []
    else Recent(hits[..|hits| - 1], now) + if hits[|hits| - 1] < now - HOUR then [] else [hits[|hits| - 1]]
  }

  class Limiter {
    var hits: Store

    /** `hit_ok`: count this call, or refuse it and say when to come back. */
    method HitOk(key: string, limit: int, window: nat, now: int) returns (ok: bool, retry: int)
      modifies this
      ensures var before := HitsOf(old(hits), key);
        && ok == Admits(before, limit, window, now)
        && hits == Stored(old(hits), key, limit, window, now)
        && retry == if ok then 0 else RetryAfter(OldestFrom(before, now - window * SECOND), window, now)
    {
      if limit <= 0 {
        return true, 0;
      }
      var mine := HitsOf(hits, key);
      var count, oldest := CountFrom(mine, now - window * SECOND), OldestFrom(mine, now - window * SECOND);
      if count >= limit {
        return false, RetryAfter(oldest, window, now);
      }
      hits := hits[key := mine + [now]];
      return true, 0;
    }

    /** The hourly sweep, over every key. */
    method Sweep(now: int)
      modifies this
      ensures hits == Swept(old(hits), now)
    {
      hits := Swept(hits, now);
    }
  }

  function Stored(store: Store, key: string, limit: int, window: nat, now: int): Store {
    if limit > 0 && Admits(HitsOf(store, key), limit, window, now) then store[key := HitsOf(store, key) + [now]] else store
  }

  function Swept(store: Store, now: int): Store {
    map key | key in store :: Recent(store[key], now)
  }

  // ---------------------------------------------------------------- runs

  datatype Event = Call(key: string, now: int) | Sweep(now: int)

  function Step(store: Store, e: Event, limit: int, window: nat): Store {
    match e
    case Call(key, now) => Stored(store, key, limit, window, now)
    case Sweep(now) => Swept(store, now)
  }

  /** The store after a run under one limit and window. */
  function Run(events: seq<Event>, limit: int, window: nat): Store {
    if events == [] then map[] else Step(Run(events[..|events| - 1], limit, window), events[|events| - 1], limit, window)
  }

  /** The event is a call on `key` that is let through. */
  predicate LetThrough(store: Store, e: Event, limit: int, window: nat, key: string) {
    e.Call? && e.key == key && Admits(HitsOf(store, key), limit, window, e.now)
  }

  /** The times of the calls on `key` that were let through. */
  function Admitted(events: seq<Event>, limit: int, window: nat, key: string): seq<int> {
    if events == [] then []
    else
      var front, e := events[..|events| - 1], events[|events| - 1];
      Admitted(front, limit, window, key) + if LetThrough(Run(front, limit, window), e, limit, window, key) then [e.now] else []
  }

  /** What one event does to one key. */
  lemma StepOnKey(store: Store, e: Event, limit: int, window: nat, key: string)
    requires limit > 0
    ensures HitsOf(Step(store, e, limit, window), key) ==
      if e.Sweep? then Recent(HitsOf(store, key), e.now)
      else if LetThrough(store, e, limit, window, key) then HitsOf(store, key) + [e.now] else HitsOf(store, key)
  {}

  lemma OneMore(front: seq<Event>, e: Event, limit: int, window: nat, key: string)
    requires limit > 0
    ensures var store, events := Run(front, limit, window), front + [e];
      && Run(events, limit, window) == Step(store, e, limit, window)
      && Admitted(events, limit, window, key) ==
           if LetThrough(store, e, limit, window, key) then Admitted(front, limit, window, key) + [e.now] else Admitted(front, limit, window, key)
  {
    assert (front + [e])[..|front|] == front;
  }

  ghost predicate InOrder(events: seq<Event>) {
    forall i, j | 0 <= i < j < |events| :: events[i].now <= events[j].now
  }

  ghost predicate Sorted(times: seq<int>) {
    forall i, j | 0 <= i < j < |times| :: times[i] <= times[j]
  }

  ghost predicate UpTo(times: seq<int>, to: int) {
    forall i | 0 <= i < |times| :: times[i] <= to
  }

  /** Any limit + 1 consecutive times span more than `width`. */
  ghost predicate Spread(times: seq<int>, limit: nat, width: int) {
    forall i | 0 <= i && i + limit < |times| :: times[i + limit] - times[i] > width
  }

  /** The number of times in the closed interval. */
  function CountIn(times: seq<int>, from: int, to: int): nat {
    if times == [] then 0
    else CountIn(times[..|times| - 1], from, to) + if from <= times[|times| - 1] <= to then 1 else 0
  }

  /** For sorted times, `n` of them lie at or after `from` exactly when the n-th last one does. */
  lemma {:induction false} CountFromIff(times: seq<int>, from: int, n: nat)
    requires Sorted(times) && n > 0
    ensures CountFrom(times, from) >= n <==> |times| >= n && times[|times| - n] >= from
  {
    if times != [] {
      if times[|times| - 1] < from {
        AllBefore(times, from);
      } else if n > 1 {
        CountFromIff(times[..|times| - 1], from, n - 1);
      }
    }
  }

  lemma {:induction false} AllBefore(times: seq<int>, from: int)
    requires Sorted(times) && times != [] && times[|times| - 1] < from
    ensures CountFrom(times, from) == 0
  {
    if |times| > 1 {
      AllBefore(times[..|times| - 1], from);
    }
  }

  lemma {:induction false} CountSame(times: seq<int>, from: int, to: int)
    requires UpTo(times, to)
    ensures CountIn(times, from, to) == CountFrom(times, from)
  {
    if times != [] {
      CountSame(times[..|times| - 1], from, to);
    }
  }

  /** Spread times: no closed interval of that width holds more than `limit` of them. */
  lemma {:induction false} SpreadCount(times: seq<int>, limit: nat, width: int, from: int)
    requires Sorted(times) && Spread(times, limit, width)
    ensures CountIn(times, from, from + width) <= limit
  {
    if times != [] {
      var last := times[|times| - 1];
      if from <= last <= from + width {
        CountSame(times, from, from + width);
        CountFromIff(times, from, limit + 1);
        if |times| > limit {
          assert times[|times| - 1 - limit + limit] - times[|times| - 1 - limit] > width;
        }
      } else {
        SpreadCount(times[..|times| - 1], limit, width, from);
      }
    }
  }

  /** One more time, let through because fewer than `limit` fell in the window before it. */
  lemma SpreadStep(times: seq<int>, limit: nat, width: int, now: int)
    requires Sorted(times) && Spread(times, limit, width) && limit > 0 && CountFrom(times, now - width) < limit
    requires UpTo(times, now)
    ensures Sorted(times + [now]) && Spread(times + [now], limit, width)
  {
    CountFromIff(times, now - width, limit);
  }

  // ---------------------------------------------------------------- what the store remembers

  lemma {:induction false} RecentIs(hits: seq<int>, now: int)
    requires Sorted(hits)
    ensures var kept := Recent(hits, now); |kept| <= |hits| && kept == hits[|hits| - |kept|..]
    ensures forall i | 0 <= i < |hits| - |Recent(hits, now)| :: hits[i] < now - HOUR
  {
    if hits != [] {
      var front, last := hits[..|hits| - 1], hits[|hits| - 1];
      RecentIs(front, now);
      if last < now - HOUR {
        NoneRecent(hits, now);
      } else {
        assert Recent(hits, now) == front[|front| - |Recent(front, now)|..] + [last];
      }
    }
  }

  lemma {:induction false} NoneRecent(hits: seq<int>, now: int)
    requires Sorted(hits) && (hits != [] ==> hits[|hits| - 1] < now - HOUR)
    ensures Recent(hits, now) == []
  {
    if hits != [] {
      NoneRecent(hits[..|hits| - 1], now);
    }
  }

  function Clock(events: seq<Event>): int
    requires events != []
  {
    events[|events| - 1].now
  }

  /** The stored hits are the last of the admitted calls, and only calls over an hour old are missing. */
  ghost predicate Remembers(log: seq<int>, hits: seq<int>, clock: int) {
    && Sorted(log) && UpTo(log, clock)
    && |hits| <= |log| && hits == log[|log| - |hits|..]
    && forall i | 0 <= i < |log| - |hits| :: log[i] < clock - HOUR
  }

  lemma RemembersSweep(log: seq<int>, hits: seq<int>, clock: int, now: int)
    requires Remembers(log, hits, clock) && clock <= now
    ensures Remembers(log, Recent(hits, now), now)
  {
    var kept := Recent(hits, now);
    RecentIs(hits, now);
    forall i | 0 <= i < |log| - |kept| ensures log[i] < now - HOUR {
      if i >= |log| - |hits| {
        assert log[i] == hits[i - (|log| - |hits|)];
      }
    }
  }

  lemma RemembersCall(log: seq<int>, hits: seq<int>, clock: int, now: int)
    requires Remembers(log, hits, clock) && clock <= now
    ensures Remembers(log, hits, now) && Remembers(log + [now], hits + [now], now)
  {}

  /** Calls within the last hour are all still stored. */
  lemma RemembersCount(log: seq<int>, hits: seq<int>, clock: int, from: int)
    requires Remembers(log, hits, clock) && from >= clock - HOUR
    ensures CountFrom(log, from) == CountFrom(hits, from)
  {
    var n := CountFrom(log, from);
    SortedHits(log, hits, clock);
    CountFromIff(log, from, n + 1);
    CountFromIff(hits, from, n + 1);
    if n > 0 {
      CountFromIff(log, from, n);
      CountFromIff(hits, from, n);
    }
  }

  /** What holds of one key after every run in clock order. */
  ghost predicate Invariant(log: seq<int>, hits: seq<int>, limit: nat, window: nat, clock: int) {
    && Remembers(log, hits, clock) && Spread(hits, limit, window * SECOND)
    && (window <= 3600 ==> Spread(log, limit, window * SECOND))
  }

  lemma SuffixSpread(times: seq<int>, limit: nat, width: int, k: nat)
    requires Spread(times, limit, width) && k <= |times|
    ensures Spread(times[k..], limit, width)
  {
    forall i | 0 <= i && i + limit < |times[k..]| ensures times[k..][i + limit] - times[k..][i] > width {
      assert times[k + i + limit] - times[k + i] > width;
    }
  }

  lemma InvariantSweep(log: seq<int>, hits: seq<int>, limit: nat, window: nat, clock: int, now: int)
    requires Invariant(log, hits, limit, window, clock) && clock <= now
    ensures Invariant(log, Recent(hits, now), limit, window, now)
  {
    RemembersSweep(log, hits, clock, now);
    SortedHits(log, hits, clock);
    RecentIs(hits, now);
    SuffixSpread(hits, limit, window * SECOND, |hits| - |Recent(hits, now)|);
  }

  lemma SortedHits(log: seq<int>, hits: seq<int>, clock: int)
    requires Remembers(log, hits, clock)
    ensures Sorted(hits) && UpTo(hits, clock)
  {
    SuffixSorted(log, clock, |log| - |hits|);
  }

  lemma SuffixSorted(times: seq<int>, to: int, k: nat)
    requires Sorted(times) && UpTo(times, to) && k <= |times|
    ensures Sorted(times[k..]) && UpTo(times[k..], to)
  {
    forall i, j | 0 <= i < j < |times[k..]| ensures times[k..][i] <= times[k..][j] {
      assert times[k + i] <= times[k + j];
    }
  }

  lemma InvariantCall(log: seq<int>, hits: seq<int>, limit: nat, window: nat, clock: int, now: int)
    requires Invariant(log, hits, limit, window, clock) && clock <= now && limit > 0
    ensures Invariant(log, hits, limit, window, now)
    ensures Admits(hits, limit, window, now) ==> Invariant(log + [now], hits + [now], limit, window, now)
  {
    RemembersCall(log, hits, clock, now);
    if Admits(hits, limit, window, now) {
      SortedHits(log, hits, clock);
      SpreadStep(hits, limit, window * SECOND, now);
      if window <= 3600 {
        RemembersCount(log, hits, now, now - window * SECOND);
        SpreadStep(log, limit, window * SECOND, now);
      }
    }
  }

  ghost predicate KeyInvariant(events: seq<Event>, limit: nat, window: nat, key: string, clock: int) {
    Invariant(Admitted(events, limit, window, key), HitsOf(Run(events, limit, window), key), limit, window, clock)
  }

  lemma EventKeeps(front: seq<Event>, e: Event, limit: nat, window: nat, key: string, clock: int)
    requires KeyInvariant(front, limit, window, key, clock) && clock <= e.now && limit > 0
    ensures KeyInvariant(front + [e], limit, window, key, e.now)
  {
    var store := Run(front, limit, window);
    var log, hits := Admitted(front, limit, window, key), HitsOf(store, key);
    OneMore(front, e, limit, window, key);
    StepOnKey(store, e, limit, window, key);
    if e.Sweep? {
      InvariantSweep(log, hits, limit, window, clock, e.now);
    } else {
      InvariantCall(log, hits, limit, window, clock, e.now);
    }
  }

  lemma {:induction false} RunKeepsInvariant(events: seq<Event>, limit: nat, window: nat, key: string)
    requires InOrder(events) && events != [] && limit > 0
    ensures KeyInvariant(events, limit, window, key, Clock(events))
  {
    var front, e := events[..|events| - 1], events[|events| - 1];
    assert events == front + [e];
    if front == [] {
      EventKeeps(front, e, limit, window, key, e.now);
    } else {
      RunKeepsInvariant(front, limit, window, key);
      EventKeeps(front, e, limit, window, key, Clock(front));
    }
  }

  lemma AdmittedSpread(events: seq<Event>, limit: nat, window: nat, key: string)
    requires InOrder(events) && limit > 0 && window <= 3600
    ensures Sorted(Admitted(events, limit, window, key)) && Spread(Admitted(events, limit, window, key), limit, window * SECOND)
  {
    if events != [] {
      RunKeepsInvariant(events, limit, window, key);
    }
  }

  predicate Bounded(times: seq<int>, limit: nat, window: nat, from: int) {
    CountIn(times, from, from + window * SECOND) <= limit
  }

  lemma SpreadIsBounded(times: seq<int>, limit: nat, window: nat, from: int)
    requires Sorted(times) && Spread(times, limit, window * SECOND)
    ensures Bounded(times, limit, window, from)
  {
    SpreadCount(times, limit, window * SECOND, from);
  }

  /** With a window of at most an hour, no closed interval as long as it holds more than `limit` admitted calls. */
  lemma LimitHolds(events: seq<Event>, limit: nat, window: nat, key: string, from: int)
    requires InOrder(events) && limit > 0 && window <= 3600
    ensures Bounded(Admitted(events, limit, window, key), limit, window, from)
  {
    AdmittedSpread(events, limit, window, key);
    SpreadIsBounded(Admitted(events, limit, window, key), limit, window, from);
  }

  // ---------------------------------------------------------------- longer windows

  function Burst(key: string, n: nat): seq<Event> {
    if n == 0 then [] else Burst(key, n - 1) + [Call(key, 0)]
  }

  function Zeros(n: nat): seq<int> {
    if n == 0 then [] else Zeros(n - 1) + [0]
  }

  lemma {:induction false} ZerosCount(n: nat, width: nat)
    ensures |Zeros(n)| == n && CountFrom(Zeros(n), 0 - width) == n && CountIn(Zeros(n), 0, width) == n && Recent(Zeros(n), HOUR + 1) == []
  {
    if n > 0 {
      ZerosCount(n - 1, width);
      assert Zeros(n)[..|Zeros(n)| - 1] == Zeros(n - 1);
    }
  }

  lemma {:induction false} BurstIsAtZero(key: string, n: nat)
    ensures |Burst(key, n)| == n && forall i | 0 <= i < n :: Burst(key, n)[i].now == 0
  {
    if n > 0 {
      BurstIsAtZero(key, n - 1);
    }
  }

  lemma ZerosAdmit(n: nat, limit: nat, window: nat)
    requires n < limit
    ensures Admits(Zeros(n), limit, window, 0)
  {
    ZerosCount(n, window * SECOND);
  }

  lemma {:induction false} BurstRuns(key: string, n: nat, limit: nat, window: nat)
    requires n <= limit && limit > 0
    ensures BurstStored(key, n, limit, window)
  {
    if n > 0 {
      BurstRuns(key, n - 1, limit, window);
      ZerosAdmit(n - 1, limit, window);
      CallAdmitted(Burst(key, n - 1), key, limit, window, 0);
    }
  }

  ghost predicate BurstStored(key: string, n: nat, limit: nat, window: nat) {
    HitsOf(Run(Burst(key, n), limit, window), key) == Zeros(n) && Admitted(Burst(key, n), limit, window, key) == Zeros(n)
  }

  lemma CallAdmitted(front: seq<Event>, key: string, limit: nat, window: nat, now: int)
    requires limit > 0 && Admits(HitsOf(Run(front, limit, window), key), limit, window, now)
    ensures var events := front + [Call(key, now)];
      && HitsOf(Run(events, limit, window), key) == HitsOf(Run(front, limit, window), key) + [now]
      && Admitted(events, limit, window, key) == Admitted(front, limit, window, key) + [now]
  {
    OneMore(front, Call(key, now), limit, window, key);
    StepOnKey(Run(front, limit, window), Call(key, now), limit, window, key);
  }

  /** A burst, the sweep that forgets it, and one call more. */
  function Forgotten(key: string, limit: nat): seq<Event> {
    Burst(key, limit) + [Sweep(HOUR + 1)] + [Call(key, HOUR + 1)]
  }

  lemma ZerosAndOne(n: nat, window: nat)
    requires window > 3600
    ensures CountIn(Zeros(n) + [HOUR + 1], 0, window * SECOND) == n + 1
  {
    ZerosCount(n, window * SECOND);
    var times := Zeros(n) + [HOUR + 1];
    assert times[..|times| - 1] == Zeros(n);
    assert HOUR + 1 <= 3601 * SECOND <= window * SECOND;
  }

  lemma ForgottenInOrder(key: string, limit: nat)
    ensures InOrder(Forgotten(key, limit))
  {
    BurstIsAtZero(key, limit);
  }

  lemma SweptBurst(key: string, limit: nat, window: nat)
    requires limit > 0
    ensures var swept := Burst(key, limit) + [Sweep(HOUR + 1)];
      HitsOf(Run(swept, limit, window), key) == [] && Admitted(swept, limit, window, key) == Zeros(limit)
  {
    BurstRuns(key, limit, limit, window);
    ZerosCount(limit, window * SECOND);
    assert (Burst(key, limit) + [Sweep(HOUR + 1)])[..|Burst(key, limit)|] == Burst(key, limit);
    assert Zeros(limit) + [] == Zeros(limit);
  }

  lemma LongWindowBreaks(key: string, limit: nat, window: nat)
    requires limit > 0 && window > 3600
    ensures InOrder(Forgotten(key, limit))
    ensures !Bounded(Admitted(Forgotten(key, limit), limit, window, key), limit, window, 0)
  {
    ForgottenInOrder(key, limit);
    SweptBurst(key, limit, window);
    CallAdmitted(Burst(key, limit) + [Sweep(HOUR + 1)], key, limit, window, HOUR + 1);
    ZerosAndOne(limit, window);
  }

  /** The bound holds over every run exactly when the window is no longer than the sweep keeps hits. */
  lemma BoundHoldsIff(key: string, limit: nat, window: nat)
    requires limit > 0
    ensures (forall events, from :: InOrder(events) ==> Bounded(Admitted(events, limit, window, key), limit, window, from)) <==> window <= 3600
  {
    if window <= 3600 {
      forall events, from ensures InOrder(events) ==> Bounded(Admitted(events, limit, window, key), limit, window, from) {
        if InOrder(events) {
          LimitHolds(events, limit, window, key, from);
        }
      }
    } else {
      LongWindowBreaks(key, limit, window);
    }
  }

  // ---------------------------------------------------------------- coming back

  /** At a full window the oldest hit is the limit-th last one, so one leaves when it does. */
  lemma OldestInWindow(hits: seq<int>, limit: nat, width: int, from: int, clock: int, h: int)
    requires Sorted(hits) && UpTo(hits, clock) && Spread(hits, limit, width) && from == clock - width
    requires 0 < limit <= |hits| && h in hits && h >= from
    ensures h >= hits[|hits| - limit]
  {
    var n := |hits|;
    var i :| 0 <= i < n && hits[i] == h;
    assert n - 1 - limit >= 0 ==> hits[n - 1 - limit + limit] - hits[n - 1 - limit] > width;
  }

  lemma OldestIs(hits: seq<int>, limit: nat, width: int, from: int, clock: int)
    requires Sorted(hits) && UpTo(hits, clock) && Spread(hits, limit, width) && from == clock - width
    requires limit > 0 && CountFrom(hits, from) >= limit
    ensures |hits| >= limit && OldestFrom(hits, from) == Some(hits[|hits| - limit])
  {
    var n := |hits|;
    CountFromIff(hits, from, limit);
    assert hits[n - limit] in hits;
    OldestInWindow(hits, limit, width, from, clock, OldestFrom(hits, from).value);
  }

  lemma FreedIff(hits: seq<int>, limit: nat, window: nat, now: int, later: int)
    requires Sorted(hits) && UpTo(hits, now) && Spread(hits, limit, window * SECOND)
    requires limit > 0 && now <= later && !Admits(hits, limit, window, now)
    ensures var oldest := OldestFrom(hits, now - window * SECOND);
      oldest.Some? && (Admits(hits, limit, window, later) <==> later > oldest.value + window * SECOND)
  {
    OldestIs(hits, limit, window * SECOND, now - window * SECOND, now);
    CountFromIff(hits, later - window * SECOND, limit);
  }

  /** No call on `key`. */
  predicate Quiet(events: seq<Event>, key: string) {
    forall e | e in events :: e.Sweep? || e.key != key
  }

  predicate IsSuffix(after: seq<int>, before: seq<int>) {
    |after| <= |before| && after == before[|before| - |after|..]
  }

  lemma SweptSuffix(before: seq<int>, middle: seq<int>, now: int)
    requires Sorted(middle) && IsSuffix(middle, before)
    ensures IsSuffix(Recent(middle, now), before) && Sorted(Recent(middle, now))
  {
    RecentIs(middle, now);
    var after := Recent(middle, now);
    assert before[|before| - |middle|..][|middle| - |after|..] == before[|before| - |after|..];
  }

  /** Sweeps and other keys' calls only ever shorten what is stored for a key, from the front. */
  lemma {:induction false} QuietShortens(events: seq<Event>, between: seq<Event>, limit: nat, window: nat, key: string)
    requires Quiet(between, key) && limit > 0 && Sorted(HitsOf(Run(events, limit, window), key))
    ensures var after := HitsOf(Run(events + between, limit, window), key);
      IsSuffix(after, HitsOf(Run(events, limit, window), key)) && Sorted(after)
  {
    if between == [] {
      assert events + between == events;
    } else {
      var front, e := between[..|between| - 1], between[|between| - 1];
      assert forall x | x in front :: x in between;
      QuietShortens(events, front, limit, window, key);
      assert events + between == (events + front) + [e];
      QuietStep(events + front, e, limit, window, key, HitsOf(Run(events, limit, window), key));
    }
  }

  lemma QuietStep(front: seq<Event>, e: Event, limit: nat, window: nat, key: string, before: seq<int>)
    requires limit > 0 && (e.Sweep? || e.key != key)
    requires var middle := HitsOf(Run(front, limit, window), key); IsSuffix(middle, before) && Sorted(middle)
    ensures var after := HitsOf(Run(front + [e], limit, window), key); IsSuffix(after, before) && Sorted(after)
  {
    OneMore(front, e, limit, window, key);
    StepOnKey(Run(front, limit, window), e, limit, window, key);
    if e.Sweep? {
      SweptSuffix(before, HitsOf(Run(front, limit, window), key), e.now);
    }
  }

  /** A refused caller who waits strictly longer than the time it was given, with no other call on its key, is let through. */
  lemma WaitingIsEnough(events: seq<Event>, between: seq<Event>, limit: nat, window: nat, key: string, now: int, later: int)
    requires InOrder(events) && (events != [] ==> Clock(events) <= now) && limit > 0 && Quiet(between, key)
    requires var hits := HitsOf(Run(events, limit, window), key);
      !Admits(hits, limit, window, now) && later > now + RetryAfter(OldestFrom(hits, now - window * SECOND), window, now) * SECOND
    ensures Admits(HitsOf(Run(events + between, limit, window), key), limit, window, later)
  {
    var hits := HitsOf(Run(events, limit, window), key);
    if events != [] {
      StoredHits(events, limit, window, key, now);
    }
    FreedIff(hits, limit, window, now, later);
    QuietShortens(events, between, limit, window, key);
    FewerAdmit(hits, HitsOf(Run(events + between, limit, window), key), limit, window, later);
  }

  lemma FewerAdmit(before: seq<int>, after: seq<int>, limit: nat, window: nat, later: int)
    requires Sorted(before) && Sorted(after) && limit > 0 && Admits(before, limit, window, later)
    requires IsSuffix(after, before)
    ensures Admits(after, limit, window, later)
  {
    CountFromIff(before, later - window * SECOND, limit);
    CountFromIff(after, later - window * SECOND, limit);
  }

  lemma StoredHits(events: seq<Event>, limit: nat, window: nat, key: string, now: int)
    requires InOrder(events) && events != [] && Clock(events) <= now && limit > 0
    ensures var hits := HitsOf(Run(events, limit, window), key); Sorted(hits) && UpTo(hits, now) && Spread(hits, limit, window * SECOND)
  {
    RunKeepsInvariant(events, limit, window, key);
    SortedHits(Admitted(events, limit, window, key), HitsOf(Run(events, limit, window), key), Clock(events));
  }

  /** Coming back exactly at the given time can be too early: the window is closed at its old end. */
  lemma ExactWaitCanFail()
    ensures !Admits([0], 1, 60, 0) && RetryAfter(OldestFrom([0], 0 - 60 * SECOND), 60, 0) == 60
    ensures !Admits([0], 1, 60, 60 * SECOND) && Admits([0], 1, 60, 60 * SECOND + 1)
  {
    assert [0][..0] == [];
    assert OldestFrom([0], 0 - 60 * SECOND) == Some(0);
  }
}
