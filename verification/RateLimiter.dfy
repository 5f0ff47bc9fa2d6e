/**
 Sliding-window rate limiter: per key, the admissions still inside the window,
 pruned on each call and swept once a minute. A ghost log keeps every admission.
 */
module RateLimiter {
  import opened Spans

  const MAX_WINDOW_SECONDS := 600
  const CLEANUP_INTERVAL_SECONDS := 60

  /** Each key is always checked with the same limit and window. */
  datatype RawPolicy = RawPolicy(limit: int, window: int)
  type Policy = p: RawPolicy | p.limit >= 1 && 1 <= p.window <= MAX_WINDOW_SECONDS witness RawPolicy(1, 1)

  /** Admissions after the cutoff, out of a full history. */
  function Recent(log: seq<real>, cutoff: real): seq<real> {
    if log == [] then []
    else
      var last := log[|log| - 1];
      var earlier := Recent(log[..|log| - 1], cutoff);
      if cutoff < last then earlier + [last] else earlier
  }

  /** `kept` is the end of the log, and what precedes it is out of the window. */
  ghost predicate EndOf(kept: seq<real>, log: seq<real>, cutoff: real) {
    && |kept| <= |log| && kept == log[|log| - |kept|..]
    && forall i :: 0 <= i < |log| - |kept| ==> log[i] <= cutoff
  }

  function LogOf(log: map<string, seq<real>>, key: string): seq<real> { if key in log then log[key] else [] }

  function Ceil(x: real): (c: int)
    ensures x <= c as real < x + 1.0
  {
    -((-x).Floor)
  }

  // ---- the log ---------------------------------------------------------------

  lemma {:induction false} RecentIsTheEnd(log: seq<real>, now: real, cutoff: real)
    requires Sorted(log, now)
    ensures EndOf(Recent(log, cutoff), log, cutoff)
    ensures forall i :: 0 <= i < |Recent(log, cutoff)| ==> cutoff < Recent(log, cutoff)[i]
  {
    if log != [] {
      var n := |log| - 1;
      RecentIsTheEnd(log[..n], log[n], cutoff);
      SortedPairs(log, now);
      var earlier := Recent(log[..n], cutoff);
      assert earlier == [] || earlier[0] == log[n - |earlier|];
      if cutoff < log[n] {
        assert log[n - |earlier|..] == earlier + [log[n]];
      }
    }
  }

  lemma {:induction false} RecentOfRecent(log: seq<real>, earlier: real, later: real)
    requires earlier <= later
    ensures Recent(Recent(log, earlier), later) == Recent(log, later)
  {
    if log != [] {
      var n := |log| - 1;
      RecentOfRecent(log[..n], earlier, later);
      var kept := Recent(log[..n], earlier);
      assert (kept + [log[n]])[..|kept|] == kept;
    }
  }

  lemma {:induction false} FrontIsOld(deque: seq<real>, cutoff: real)
    requires deque != [] && deque[0] <= cutoff
    ensures Recent(deque[1..], cutoff) == Recent(deque, cutoff)
  {
    var n := |deque| - 1;
    if n > 0 {
      FrontIsOld(deque[..n], cutoff);
      assert deque[1..][..n - 1] == deque[..n][1..];
    }
  }

  lemma {:induction false} AllIsRecent(deque: seq<real>, now: real, cutoff: real)
    requires Sorted(deque, now) && (deque != [] ==> cutoff < deque[0])
    ensures Recent(deque, cutoff) == deque
  {
    if deque != [] {
      var n := |deque| - 1;
      AllIsRecent(deque[..n], deque[n], cutoff);
      SortedPairs(deque, now);
      assert deque == deque[..n] + [deque[n]];
    }
  }

  lemma {:induction false} TailIsSorted(deque: seq<real>, now: real)
    requires Sorted(deque, now) && deque != []
    ensures Sorted(deque[1..], now)
  {
    var n := |deque| - 1;
    if n > 0 {
      TailIsSorted(deque[..n], deque[n]);
      assert deque[1..][..n - 1] == deque[..n][1..];
    }
  }

  lemma FewAreRecent(log: seq<real>, now: real, cutoff: real, k: int)
    requires Sorted(log, now) && |Recent(log, cutoff)| < k <= |log|
    ensures log[|log| - k] <= cutoff
  {
    RecentIsTheEnd(log, now, cutoff);
  }

  lemma {:induction false} AdmissionKeepsSpacing(log: seq<real>, now: real, p: Policy)
    requires Sorted(log, now) && Spaced(log, p.limit, p.window as real)
    requires |Recent(log, now - p.window as real)| < p.limit
    ensures Sorted(log + [now], now) && Spaced(log + [now], p.limit, p.window as real)
  {
    var more := log + [now];
    assert more[..|log|] == log && more[|log|] == now;
    if p.limit <= |log| {
      FewAreRecent(log, now, now - p.window as real, p.limit);
      assert more[|log| - p.limit] == log[|log| - p.limit];
    }
    if log != [] { SortedPairs(log, now); }
  }

  /** The deque and the log have the same admissions in the window. */
  ghost predicate Agrees(deque: seq<real>, log: seq<real>, p: Policy, latest: real) {
    && Sorted(log, latest) && Spaced(log, p.limit, p.window as real)
    && Sorted(deque, latest) && |deque| <= p.limit
    && Recent(deque, latest - p.window as real) == Recent(log, latest - p.window as real)
  }

  lemma AgreesLater(deque: seq<real>, log: seq<real>, p: Policy, latest: real, now: real)
    requires Agrees(deque, log, p, latest) && latest <= now
    ensures Agrees(deque, log, p, now)
  {
    RecentOfRecent(deque, latest - p.window as real, now - p.window as real);
    RecentOfRecent(log, latest - p.window as real, now - p.window as real);
  }

  ghost predicate AllAgree(
    events: map<string, seq<real>>, log: map<string, seq<real>>, policies: map<string, Policy>, latest: real)
  {
    && events.Keys <= policies.Keys && log.Keys <= policies.Keys
    && forall key :: key in policies ==> Agrees(LogOf(events, key), LogOf(log, key), policies[key], latest)
  }

  /** What callers rely on: no span of the window's length ever holds more than `limit` admissions. */
  lemma NoWindowExceedsTheLimit(
    events: map<string, seq<real>>, log: map<string, seq<real>>, policies: map<string, Policy>, latest: real,
    key: string, from: real)
    requires AllAgree(events, log, policies, latest) && key in policies
    ensures CountIn(LogOf(log, key), from, from + policies[key].window as real) <= policies[key].limit
  {
    NoSpanHoldsMore(LogOf(log, key), latest, policies[key].limit, policies[key].window as real, from);
  }

  lemma KeyUpdated(
    events: map<string, seq<real>>, log: map<string, seq<real>>, policies: map<string, Policy>, now: real,
    key: string, p: Policy, deque: seq<real>, history: seq<real>)
    requires AllAgree(events, log, policies, now) && Agrees(deque, history, p, now)
    ensures AllAgree(events[key := deque], log[key := history], policies[key := p], now)
  {
    var policies' := policies[key := p];
    forall other | other in policies'
      ensures Agrees(LogOf(events[key := deque], other), LogOf(log[key := history], other), policies'[other], now)
    {
      if other != key {
        assert LogOf(events[key := deque], other) == LogOf(events, other);
      }
    }
  }

  lemma StaleKeyIsEmpty(deque: seq<real>, log: seq<real>, p: Policy, now: real)
    requires Agrees(deque, log, p, now)
    requires deque == [] || deque[|deque| - 1] <= now - MAX_WINDOW_SECONDS as real
    ensures Agrees([], log, p, now)
  {
    NoneIsRecent(deque, now - p.window as real);
  }

  lemma {:induction false} NoneIsRecent(deque: seq<real>, cutoff: real)
    requires deque == [] || Sorted(deque, cutoff)
    ensures Recent(deque, cutoff) == []
  {
    if deque != [] {
      NoneIsRecent(deque[..|deque| - 1], cutoff);
    }
  }

  /** A full window stays full until its oldest admission leaves it. */
  lemma FullUntilOldestLeaves(log: seq<real>, now: real, cutoff: real, later: real)
    requires Sorted(log, now) && cutoff <= later && Recent(log, cutoff) != []
    ensures Recent(log, cutoff)[0] <= later ==> |Recent(log, later)| < |Recent(log, cutoff)|
    ensures later < Recent(log, cutoff)[0] ==> |Recent(log, later)| == |Recent(log, cutoff)|
  {
    RecentIsTheEnd(log, now, cutoff);
    RecentIsTheEnd(log, now, later);
    assert Recent(log, cutoff)[0] == log[|log| - |Recent(log, cutoff)|];
    SortedPairs(log, now);
  }

  lemma BelowCeil(x: real, d: int)
    requires d < Ceil(x)
    ensures (d as real) < x
  {
    assert d as real <= (Ceil(x) - 1) as real == Ceil(x) as real - 1.0;
  }

  lemma RefusedWhileFull(log: seq<real>, now: real, p: Policy, d: int)
    requires Sorted(log, now) && |Recent(log, now - p.window as real)| == p.limit && 0 <= d
    ensures RefusedAfter(log, now, p, d) ==
            ((d as real) < Recent(log, now - p.window as real)[0] + p.window as real - now)
  {
    FullUntilOldestLeaves(log, now, now - p.window as real, now + d as real - p.window as real);
  }

  lemma RefusalWaits(deque: seq<real>, log: seq<real>, now: real, p: Policy, wait: int)
    requires Sorted(log, now) && deque == Recent(log, now - p.window as real) && |deque| == p.limit
    requires now - p.window as real < deque[0] && wait == Ceil(deque[0] + p.window as real - now)
    ensures LeastWait(log, now, p, wait)
  {
    RefusedWhileFull(log, now, p, wait);
    forall d | 0 <= d < wait
      ensures RefusedAfter(log, now, p, d)
    {
      BelowCeil(deque[0] + p.window as real - now, d);
      RefusedWhileFull(log, now, p, d);
    }
  }

  /** Removes entries from the front while they are out of the window. */
  method Prune(events: seq<real>, cutoff: real, ghost now: real) returns (deque: seq<real>)
    requires Sorted(events, now)
    ensures deque == Recent(events, cutoff) && Sorted(deque, now) && |deque| <= |events|
  {
    deque := events;
    while deque != [] && deque[0] <= cutoff
      invariant Recent(deque, cutoff) == Recent(events, cutoff) && Sorted(deque, now) && |deque| <= |events|
    {
      FrontIsOld(deque, cutoff);
      TailIsSorted(deque, now);
      deque := deque[1..];
    }
    AllIsRecent(deque, now, cutoff);
  }

  method Decide(events: seq<real>, p: Policy, now: real, ghost log: seq<real>)
    returns (admitted: bool, retryAfter: int, deque: seq<real>, ghost log': seq<real>)
    requires Agrees(events, log, p, now)
    ensures Agrees(deque, log', p, now) && deque == Recent(log', now - p.window as real)
    ensures log' == if admitted then log + [now] else log
    ensures admitted <==> |Recent(log, now - p.window as real)| < p.limit
    ensures if admitted then retryAfter == 0 else LeastWait(log, now, p, retryAfter)
  {
    var cutoff := now - p.window as real;
    deque := Prune(events, cutoff, now);
    RecentOfRecent(log, cutoff, cutoff);
    if |deque| >= p.limit {
      var wait := Ceil(deque[0] + p.window as real - now);
      retryAfter := if wait < 1 then 1 else wait;
      RecentIsTheEnd(log, now, cutoff);
      RefusalWaits(deque, log, now, p, retryAfter);
      return false, retryAfter, deque, log;
    }
    AdmissionKeepsSpacing(log, now, p);
    assert (log + [now])[..|log|] == log && (deque + [now])[..|deque|] == deque;
    if deque != [] { SortedPairs(deque, now); }
    RecentOfRecent(log + [now], cutoff, cutoff);
    return true, 0, deque + [now], log + [now];
  }

  // ---- the limiter -----------------------------------------------------------

  class InMemoryRateLimiter {
    var events: map<string, seq<real>>
    var lastCleanup: real
    /** Every admission ever, each key's policy, and the time of the latest call. */
    ghost var log: map<string, seq<real>>
    ghost var policies: map<string, Policy>
    ghost var latest: real

    ghost predicate Valid()
      reads this
    {
      AllAgree(events, log, policies, latest)
    }

    constructor (now: real)
      ensures Valid() && events == map[] && log == map[] && policies == map[] && latest == now
    {
      events, lastCleanup := map[], now;
      log, policies, latest := map[], map[], now;
    }

    method Check(key: string, p: Policy, now: real) returns (admitted: bool, retryAfter: int)
      requires Valid() && latest <= now && (key in policies ==> policies[key] == p)
      modifies this
      ensures Valid() && latest == now && policies == old(policies)[key := p]
      ensures admitted <==> |Recent(old(LogOf(log, key)), now - p.window as real)| < p.limit
      ensures log == old(log)[key := if admitted then old(LogOf(log, key)) + [now] else old(LogOf(log, key))]
      ensures LogOf(events, key) == Recent(LogOf(log, key), now - p.window as real)
      ensures if admitted then retryAfter == 0 else LeastWait(old(LogOf(log, key)), now, p, retryAfter)
    {
      CleanupIfNeeded(now);
      var deque;
      ghost var history;
      admitted, retryAfter, deque, history := Decide(LogOf(events, key), p, now, LogOf(log, key));
      Record(key, p, deque, history);
    }

    method Record(key: string, p: Policy, deque: seq<real>, ghost history: seq<real>)
      requires Valid() && Agrees(deque, history, p, latest)
      modifies this`events, this`log, this`policies
      ensures Valid()
      ensures events == old(events)[key := deque] && log == old(log)[key := history]
      ensures policies == old(policies)[key := p]
    {
      KeyUpdated(events, log, policies, latest, key, p, deque, history);
      events := events[key := deque];
      log, policies := log[key := history], policies[key := p];
    }

    /** Once a minute, forgets keys whose last admission is older than any window. */
    method CleanupIfNeeded(now: real)
      requires Valid() && latest <= now
      modifies this`events, this`lastCleanup, this`latest
      ensures Valid() && latest == now
    {
      ClockAdvances(events, log, policies, latest, now);
      latest := now;
      if now - lastCleanup < CLEANUP_INTERVAL_SECONDS as real { return; }
      var staleBefore := now - MAX_WINDOW_SECONDS as real;
      var stale := set key | key in events && (events[key] == [] || events[key][|events[key]| - 1] <= staleBefore);
      SweepKeepsAgreement(events, log, policies, now, stale);
      events := events - stale;
      lastCleanup := now;
    }
  }

  lemma ClockAdvances(
    events: map<string, seq<real>>, log: map<string, seq<real>>, policies: map<string, Policy>, latest: real, now: real)
    requires AllAgree(events, log, policies, latest) && latest <= now
    ensures AllAgree(events, log, policies, now)
  {
    forall key | key in policies
      ensures Agrees(LogOf(events, key), LogOf(log, key), policies[key], now)
    {
      AgreesLater(LogOf(events, key), LogOf(log, key), policies[key], latest, now);
    }
  }

  lemma SweepKeepsAgreement(
    events: map<string, seq<real>>, log: map<string, seq<real>>,
    policies: map<string, Policy>, now: real, stale: set<string>)
    requires AllAgree(events, log, policies, now)
    requires forall key :: key in stale ==>
               && key in events
               && (events[key] == [] || events[key][|events[key]| - 1] <= now - MAX_WINDOW_SECONDS as real)
    ensures AllAgree(events - stale, log, policies, now)
  {
    forall key | key in policies
      ensures Agrees(LogOf(events - stale, key), LogOf(log, key), policies[key], now)
    {
      if key in stale {
        StaleKeyIsEmpty(events[key], LogOf(log, key), policies[key], now);
      } else {
        assert LogOf(events - stale, key) == LogOf(events, key);
      }
    }
  }

  /** Waiting `wait` seconds is enough for the same key to be admitted, and no fewer are. */
  ghost predicate LeastWait(history: seq<real>, now: real, p: Policy, wait: int) {
    && wait >= 1
    && !RefusedAfter(history, now, p, wait)
    && forall d :: 0 <= d < wait ==> RefusedAfter(history, now, p, d)
  }

  predicate RefusedAfter(history: seq<real>, now: real, p: Policy, wait: int) {
    |Recent(history, now + wait as real - p.window as real)| >= p.limit
  }
}
