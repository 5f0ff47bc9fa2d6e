/**
 Verification of an account's e-mail address: wrong codes counted in a fixed
 window that locks, and messages limited by a cooldown and a fixed window.
 Instants are in seconds. Ghost logs keep every counted failure and every send.
 */
module EmailVerification {
  import opened Basics
  import opened Spans

  const CODE_TTL := 10.0 * 60.0
  const RESEND_COOLDOWN := 60.0
  const SEND_WINDOW := 60.0 * 60.0
  const FAILED_WINDOW := 15.0 * 60.0
  const MAX_SENDS_PER_WINDOW := 5
  const MAX_FAILED_ATTEMPTS := 5

  datatype Verification = Verification(
    digest: string, expiresAt: real,
    failedAttempts: int, failedWindowStartedAt: Option<real>, lockedUntil: Option<real>,
    lastSentAt: real, sendWindowStartedAt: real, sendCount: int)

  function Fresh(digest: string, now: real): Verification {
    Verification(digest, now + CODE_TTL, 0, None, None, now, now, 1)
  }

  // ---- fixed windows over a log ----------------------------------------------

  /** The log cut into windows of at most five entries, each starting a width or more after the one before. */
  ghost predicate Windowed(log: seq<real>, starts: seq<nat>, width: real) {
    if starts == [] then log == []
    else
      var m := |starts| - 1;
      && starts[m] < |log| <= starts[m] + 5
      && (m > 0 ==> starts[m - 1] < starts[m] && log[starts[m - 1]] + width <= log[starts[m]])
      && Windowed(log[..starts[m]], starts[..m], width)
  }

  ghost predicate HasWindows(log: seq<real>, width: real) { exists starts :: Windowed(log, starts, width) }

  /** The current window began at `start` and holds `count` entries. */
  ghost predicate CurrentWindow(log: seq<real>, width: real, start: real, count: int) {
    exists starts :: Windowed(log, starts, width) && starts != []
      && log[starts[|starts| - 1]] == start && |log| - starts[|starts| - 1] == count
  }

  lemma OpenWindow(log: seq<real>, width: real, now: real, start: Option<real>, count: int)
    requires if start.Some? then CurrentWindow(log, width, start.value, count) && start.value + width <= now
             else log == []
    ensures CurrentWindow(log + [now], width, now, 1)
  {
    var starts: seq<nat> := [];
    if start.Some? {
      starts :| Windowed(log, starts, width) && starts != []
        && log[starts[|starts| - 1]] == start.value && |log| - starts[|starts| - 1] == count;
    }
    NextWindow(log, starts, width, now);
    var more := starts + [|log|];
    assert (log + [now])[more[|more| - 1]] == now;
  }

  lemma NextWindow(log: seq<real>, starts: seq<nat>, width: real, now: real)
    requires Windowed(log, starts, width) && (starts != [] ==> log[starts[|starts| - 1]] + width <= now)
    ensures Windowed(log + [now], starts + [|log|], width)
  {
    assert (starts + [|log|])[..|starts|] == starts && (log + [now])[..|log|] == log;
  }

  lemma ExtendWindow(log: seq<real>, width: real, now: real, start: real, count: int)
    requires CurrentWindow(log, width, start, count) && count < 5
    ensures CurrentWindow(log + [now], width, start, count + 1)
  {
    var starts :| Windowed(log, starts, width) && starts != []
      && log[starts[|starts| - 1]] == start && |log| - starts[|starts| - 1] == count;
    var s := starts[|starts| - 1];
    assert (log + [now])[..s] == log[..s];
    assert Windowed(log + [now], starts, width);
  }

  /** Of any ten consecutive entries, the last comes a whole window or more after the first. */
  lemma {:induction false} TenSpanAWindow(log: seq<real>, starts: seq<nat>, width: real, now: real)
    requires Windowed(log, starts, width) && Sorted(log, now) && width > 0.0
    ensures Spaced(log, 9, width)
    decreases |log|
  {
    if log != [] {
      var n, m := |log| - 1, |starts| - 1;
      var s := starts[m];
      if s == n {
        assert log[..n] == log[..s];
        TenSpanAWindow(log[..n], starts[..m], width, log[n]);
      } else {
        assert log[..n][..s] == log[..s];
        TenSpanAWindow(log[..n], starts, width, log[n]);
      }
      SortedPairs(log, now);
      if n >= 9 {
        var r := starts[..m][m - 1];
        assert log[..s][..r] == log[..r];
        assert log[n - 9] <= log[r];
      }
    }
  }

  /** Hence no half-open span of a window's width holds more than nine. */
  lemma AtMostNine(log: seq<real>, width: real, now: real, from: real)
    requires HasWindows(log, width) && Sorted(log, now) && width > 0.0
    ensures CountIn(log, from, from + width) <= 9
  {
    var starts :| Windowed(log, starts, width);
    TenSpanAWindow(log, starts, width, now);
    NoSpanHoldsMore(log, now, 9, width, from);
  }

  // ---- what the account's fields mean ----------------------------------------

  /** The counter and the lock, in terms of every failure counted so far. */
  ghost predicate FailuresMatch(v: Verification, log: seq<real>) {
    match v.failedWindowStartedAt
    case None => log == [] && v.failedAttempts == 0 && v.lockedUntil.None?
    case Some(start) =>
      && CurrentWindow(log, FAILED_WINDOW, start, v.failedAttempts)
      && 1 <= v.failedAttempts <= MAX_FAILED_ATTEMPTS
      && v.lockedUntil == if v.failedAttempts == MAX_FAILED_ATTEMPTS then Some(start + FAILED_WINDOW) else None
  }

  ghost predicate SendsMatch(v: Verification, log: seq<real>) {
    && CurrentWindow(log, SEND_WINDOW, v.sendWindowStartedAt, v.sendCount)
    && v.lastSentAt == log[|log| - 1] && v.expiresAt == log[|log| - 1] + 600.0
    && 1 <= v.sendCount <= MAX_SENDS_PER_WINDOW
  }

  predicate Locked(v: Verification, now: real) { v.lockedUntil.Some? && now < v.lockedUntil.value }

  /** A code is compared at all: the account is not locked and its code has not expired. */
  predicate Comparable(v: Verification, now: real) { !Locked(v, now) && now < v.expiresAt }

  function AfterFailure(v: Verification, now: real): Verification {
    var expired := v.failedWindowStartedAt.None? || v.failedWindowStartedAt.value + FAILED_WINDOW <= now;
    var counted := if expired then v.(failedWindowStartedAt := Some(now), failedAttempts := 1, lockedUntil := None)
                   else v.(failedAttempts := v.failedAttempts + 1);
    if counted.failedAttempts >= MAX_FAILED_ATTEMPTS
    then counted.(lockedUntil := Some(counted.failedWindowStartedAt.value + FAILED_WINDOW))
    else counted
  }

  lemma FailureIsCounted(v: Verification, log: seq<real>, now: real)
    requires FailuresMatch(v, log) && !Locked(v, now)
    ensures FailuresMatch(AfterFailure(v, now), log + [now])
  {
    var start := v.failedWindowStartedAt;
    if start.Some? && now < start.value + FAILED_WINDOW {
      ExtendWindow(log, FAILED_WINDOW, now, start.value, v.failedAttempts);
    } else {
      OpenWindow(log, FAILED_WINDOW, now, start, v.failedAttempts);
    }
  }

  predicate Sendable(v: Verification, now: real) {
    && v.lastSentAt + RESEND_COOLDOWN <= now
    && (v.sendWindowStartedAt + SEND_WINDOW <= now || v.sendCount < MAX_SENDS_PER_WINDOW)
  }

  function AfterSend(v: Verification, digest: string, now: real): Verification {
    var sent := v.(digest := digest, expiresAt := now + CODE_TTL, lastSentAt := now);
    if v.sendWindowStartedAt + SEND_WINDOW <= now then sent.(sendWindowStartedAt := now, sendCount := 1)
    else sent.(sendCount := v.sendCount + 1)
  }

  lemma SendIsCounted(v: Verification, digest: string, log: seq<real>, now: real)
    requires SendsMatch(v, log) && Sendable(v, now)
    ensures SendsMatch(AfterSend(v, digest, now), log + [now])
  {
    if v.sendWindowStartedAt + SEND_WINDOW <= now {
      OpenWindow(log, SEND_WINDOW, now, Some(v.sendWindowStartedAt), v.sendCount);
    } else {
      ExtendWindow(log, SEND_WINDOW, now, v.sendWindowStartedAt, v.sendCount);
    }
  }

  lemma FirstSendIsCounted(digest: string, now: real)
    ensures SendsMatch(Fresh(digest, now), [now]) && FailuresMatch(Fresh(digest, now), [])
  {
    OpenWindow([], SEND_WINDOW, now, None, 0);
    assert [] + [now] == [now];
  }

  // ---- how many a span can hold ------------------------------------------------

  /** A span holds more than one window's five only if a window starts inside it, after one that reaches into it. */
  ghost predicate NewWindowInside(log: seq<real>, starts: seq<nat>, from: real, to: real) {
    exists m :: 0 < m < |starts| && StartsInside(log, starts[m], from, to)
  }

  /** Entry s begins a window inside the span, and the entry before it is inside too. */
  predicate StartsInside(log: seq<real>, s: nat, from: real, to: real) {
    0 < s < |log| && from <= log[s - 1] && log[s] < to
  }

  lemma {:induction false} MoreThanFiveNeedsNewWindow(
    log: seq<real>, starts: seq<nat>, width: real, now: real, from: real, to: real)
    requires Windowed(log, starts, width) && Sorted(log, now)
    requires CountIn(log, from, to) > 5
    ensures NewWindowInside(log, starts, from, to)
    decreases |log|
  {
    var n, m := |log| - 1, |starts| - 1;
    var s := starts[m];
    assert Windowed(log[..s], starts[..m], width) && (m == 0 ==> s == 0);
    if s == n {
      assert log[..n] == log[..s];
    } else {
      assert log[..n][..s] == log[..s];
    }
    var fewer := if s == n then starts[..m] else starts;
    if CountIn(log[..n], from, to) > 5 {
      MoreThanFiveNeedsNewWindow(log[..n], fewer, width, log[n], from, to);
      var k :| 0 < k < |fewer| && StartsInside(log[..n], fewer[k], from, to);
      assert fewer[k] == starts[k] && StartsInside(log, starts[k], from, to);
    } else {
      CountIsARange(log, now, from, to);
      assert log[n] < to && |log| - CountIn(log, from, to) < s;
      SortedPairs(log, now);
      assert StartsInside(log, s, from, to);
    }
  }

  // ---- nine, reached -----------------------------------------------------------

  /** What an account's owner does after registering: a wrong code, or asking for another message. */
  datatype Attempt = WrongCode(at: real) | Resend(at: real, digest: string)

  /** The account afterwards; None when a code is not compared or a message is not sent. */
  function Attempts(v: Verification, attempts: seq<Attempt>): Option<Verification> {
    if attempts == [] then Some(v)
    else
      var last := attempts[|attempts| - 1];
      match Attempts(v, attempts[..|attempts| - 1])
      case None => None
      case Some(u) =>
        if last.WrongCode? then (if Comparable(u, last.at) then Some(AfterFailure(u, last.at)) else None)
        else if Sendable(u, last.at) then Some(AfterSend(u, last.digest, last.at)) else None
  }

  /** The times of the wrong codes, or of the messages asked for. */
  function TimesOf(attempts: seq<Attempt>, wrong: bool): seq<real> {
    if attempts == [] then []
    else
      var last, earlier := attempts[|attempts| - 1], TimesOf(attempts[..|attempts| - 1], wrong);
      if last.WrongCode? == wrong then earlier + [last.at] else earlier
  }

  function AllTimes(attempts: seq<Attempt>): seq<real> {
    if attempts == [] then [] else AllTimes(attempts[..|attempts| - 1]) + [attempts[|attempts| - 1].at]
  }

  /** Attempts in order, all effective, with their counts in a span. */
  ghost predicate Reaches(
    v: Verification, attempts: seq<Attempt>, u: Verification, now: real, from: real, to: real, wrong: nat, sent: nat)
  {
    && Attempts(v, attempts) == Some(u)
    && Sorted(AllTimes(attempts), now)
    && CountIn(TimesOf(attempts, true), from, to) == wrong
    && CountIn(TimesOf(attempts, false), from, to) == sent
  }

  lemma OneMoreTime(log: seq<real>, at: real, from: real, to: real)
    ensures CountIn(log + [at], from, to) == CountIn(log, from, to) + if from <= at < to then 1 else 0
  {
    assert (log + [at])[..|log|] == log;
  }

  lemma OneMoreAttempt(attempts: seq<Attempt>, a: Attempt, wrong: bool)
    ensures (attempts + [a])[..|attempts|] == attempts
    ensures TimesOf(attempts + [a], wrong) == TimesOf(attempts, wrong) + if a.WrongCode? == wrong then [a.at] else []
    ensures AllTimes(attempts + [a]) == AllTimes(attempts) + [a.at]
  {
    assert (attempts + [a])[..|attempts|] == attempts;
  }

  lemma OneMoreInOrder(log: seq<real>, now: real, at: real)
    requires Sorted(log, now) && now <= at
    ensures Sorted(log + [at], at)
  {
    assert (log + [at])[..|log|] == log;
  }

  lemma Wrong(
    v: Verification, attempts: seq<Attempt>, u: Verification, now: real,
    at: real, from: real, to: real, wrong: nat, sent: nat)
    requires Reaches(v, attempts, u, now, from, to, wrong, sent) && now <= at && Comparable(u, at)
    ensures Reaches(v, attempts + [WrongCode(at)], AfterFailure(u, at), at, from, to,
                    wrong + if from <= at < to then 1 else 0, sent)
  {
    OneMoreAttempt(attempts, WrongCode(at), true);
    OneMoreAttempt(attempts, WrongCode(at), false);
    OneMoreInOrder(AllTimes(attempts), now, at);
    OneMoreTime(TimesOf(attempts, true), at, from, to);
  }

  lemma Resent(
    v: Verification, attempts: seq<Attempt>, u: Verification, now: real, at: real,
    digest: string, from: real, to: real, wrong: nat, sent: nat)
    requires Reaches(v, attempts, u, now, from, to, wrong, sent) && now <= at && Sendable(u, at)
    ensures Reaches(v, attempts + [Resend(at, digest)], AfterSend(u, digest, at), at, from, to,
                    wrong, sent + if from <= at < to then 1 else 0)
  {
    OneMoreAttempt(attempts, Resend(at, digest), true);
    OneMoreAttempt(attempts, Resend(at, digest), false);
    OneMoreInOrder(AllTimes(attempts), now, at);
    OneMoreTime(TimesOf(attempts, false), at, from, to);
  }

  lemma FourWrong(
    v: Verification, attempts: seq<Attempt>, u: Verification, now: real,
    at: real, from: real, to: real, wrong: nat, sent: nat)
    requires Reaches(v, attempts, u, now, from, to, wrong, sent) && now <= at && from <= at && at + 3.0 < to
    requires u.failedAttempts == 1 && u.failedWindowStartedAt.Some? && u.lockedUntil.None?
    requires at + 3.0 < u.failedWindowStartedAt.value + FAILED_WINDOW && at + 3.0 < u.expiresAt
    ensures Reaches(v, attempts + [WrongCode(at)] + [WrongCode(at + 1.0)]
              + [WrongCode(at + 2.0)] + [WrongCode(at + 3.0)],
                    u.(failedAttempts := 5, lockedUntil := Some(u.failedWindowStartedAt.value + FAILED_WINDOW)),
                    at + 3.0, from, to, wrong + 4, sent)
  {
    Wrong(v, attempts, u, now, at, from, to, wrong, sent);
    var two := attempts + [WrongCode(at)];
    Wrong(v, two, u.(failedAttempts := 2), at, at + 1.0, from, to, wrong + 1, sent);
    Wrong(v, two + [WrongCode(at + 1.0)], u.(failedAttempts := 3), at + 1.0, at + 2.0, from, to, wrong + 2, sent);
    Wrong(v, two + [WrongCode(at + 1.0)] + [WrongCode(at + 2.0)], u.(failedAttempts := 4),
        at + 2.0, at + 3.0, from, to, wrong + 3, sent);
  }

  /** One wrong code, a new message, four wrong codes before the window ends and five from its end on: all compared. */
  lemma NineFailuresAreReached(digest: string) returns (attempts: seq<Attempt>)
    ensures Attempts(Fresh(digest, 0.0), attempts).Some? && Sorted(AllTimes(attempts), 905.0)
    ensures CountIn(TimesOf(attempts, true), 897.0, 897.0 + FAILED_WINDOW) == 9
  {
    var v, from, to := Fresh(digest, 0.0), 897.0, 897.0 + FAILED_WINDOW;
    Wrong(v, [], v, 0.0, 1.0, from, to, 0, 0);
    attempts := [] + [WrongCode(1.0)];
    var u := AfterFailure(v, 1.0);
    Resent(v, attempts, u, 1.0, 600.0, digest, from, to, 0, 0);
    attempts, u := attempts + [Resend(600.0, digest)], AfterSend(u, digest, 600.0);
    FourWrong(v, attempts, u, 600.0, 897.0, from, to, 0, 0);
    attempts := attempts + [WrongCode(897.0)] + [WrongCode(898.0)] + [WrongCode(899.0)] + [WrongCode(900.0)];
    u := u.(failedAttempts := 5, lockedUntil := Some(901.0));
    Wrong(v, attempts, u, 900.0, 901.0, from, to, 4, 0);
    attempts, u := attempts + [WrongCode(901.0)], AfterFailure(u, 901.0);
    FourWrong(v, attempts, u, 901.0, 902.0, from, to, 5, 0);
    attempts := attempts + [WrongCode(902.0)] + [WrongCode(903.0)] + [WrongCode(904.0)] + [WrongCode(905.0)];
  }

  lemma FourSent(
    v: Verification, attempts: seq<Attempt>, u: Verification, now: real, at: real,
    digest: string, from: real, to: real, wrong: nat, sent: nat)
    requires Reaches(v, attempts, u, now, from, to, wrong, sent) && now <= at && from <= at && at + 180.0 < to
    requires u.sendCount == 1 && u.lastSentAt + RESEND_COOLDOWN <= at
    requires at + 180.0 < u.sendWindowStartedAt + SEND_WINDOW
    ensures var later := u.(digest := digest, sendCount := 5,
              lastSentAt := at + 180.0, expiresAt := at + 180.0 + CODE_TTL);
            Reaches(v, attempts + [Resend(at, digest)] + [Resend(at + 60.0, digest)]
                + [Resend(at + 120.0, digest)] + [Resend(at + 180.0, digest)],
                    later, at + 180.0, from, to, wrong, sent + 4)
  {
    Resent(v, attempts, u, now, at, digest, from, to, wrong, sent);
    var two, u2 := attempts + [Resend(at, digest)], AfterSend(u, digest, at);
    Resent(v, two, u2, at, at + 60.0, digest, from, to, wrong, sent + 1);
    var three, u3 := two + [Resend(at + 60.0, digest)], AfterSend(u2, digest, at + 60.0);
    Resent(v, three, u3, at + 60.0, at + 120.0, digest, from, to, wrong, sent + 2);
    Resent(v, three + [Resend(at + 120.0, digest)], AfterSend(u3, digest, at + 120.0),
        at + 120.0, at + 180.0, digest, from, to, wrong, sent + 3);
  }

  /** Four messages just before the window of the first one ends and five from its end on: all sent. */
  lemma NineMessagesAreReached(digest: string) returns (attempts: seq<Attempt>)
    ensures Attempts(Fresh(digest, 0.0), attempts).Some? && Sorted(AllTimes(attempts), 3840.0)
    ensures CountIn(TimesOf(attempts, false), 3360.0, 3360.0 + SEND_WINDOW) == 9
  {
    var v, from, to := Fresh(digest, 0.0), 3360.0, 3360.0 + SEND_WINDOW;
    FourSent(v, [], v, 0.0, 3360.0, digest, from, to, 0, 0);
    attempts := [] + [Resend(3360.0, digest)] + [Resend(3420.0, digest)]
        + [Resend(3480.0, digest)] + [Resend(3540.0, digest)];
    var u := v.(digest := digest, sendCount := 5, lastSentAt := 3540.0, expiresAt := 3540.0 + CODE_TTL);
    Resent(v, attempts, u, 3540.0, 3600.0, digest, from, to, 0, 4);
    attempts, u := attempts + [Resend(3600.0, digest)], AfterSend(u, digest, 3600.0);
    FourSent(v, attempts, u, 3600.0, 3660.0, digest, from, to, 0, 5);
    attempts := attempts + [Resend(3660.0, digest)] + [Resend(3720.0, digest)]
        + [Resend(3780.0, digest)] + [Resend(3840.0, digest)];
  }

  // ---- the account -----------------------------------------------------------

  class Account {
    /** Keyed digest of a code for this user, left abstract. */
    const digestOf: string -> string
    var registered: bool
    var verified: bool
    var verification: Option<Verification>
    ghost var failures: seq<real>
    ghost var sends: seq<real>
    /** The digest of the code in the latest message. */
    ghost var lastSent: string
    ghost var latest: real

    ghost predicate Valid()
      reads this
    {
      && LogsAreValid(failures, sends, latest)
      && (verification.Some? ==>
            && FailuresMatch(verification.value, failures) && SendsMatch(verification.value, sends)
            && verification.value.digest == lastSent)
      && (verification.None? && !verified ==> failures == [] && sends == [])
      && (!registered ==> verification.None? && !verified)
    }

    constructor (digestOf: string -> string, registered: bool, now: real)
      ensures Valid() && this.digestOf == digestOf && this.registered == registered
      ensures !verified && verification.None? && latest == now
    {
      this.digestOf, this.registered := digestOf, registered;
      verified, verification := false, None;
      failures, sends, lastSent, latest := [], [], "", now;
      new;
      NoWindows(now);
    }

    /** Creates the account with its first message; undone when the message cannot be delivered. */
    method Register(code: string, delivered: bool, now: real) returns (created: bool)
      requires Valid() && latest <= now
      modifies this
      ensures Valid() && latest == now && verified == old(verified) && failures == old(failures)
      ensures created <==> !old(registered) && delivered
      ensures registered == (old(registered) || created)
      ensures verification == if created then Some(Fresh(digestOf(code), now)) else old(verification)
      ensures sends == if created then [now] else old(sends)
      ensures lastSent == if created then digestOf(code) else old(lastSent)
    {
      LogsLater(failures, sends, latest, now);
      latest := now;
      if registered || !delivered { return false; }
      FirstSendIsCounted(digestOf(code), now);
      FirstSendIsValid(failures, now);
      registered, verification := true, Some(Fresh(digestOf(code), now));
      sends, lastSent := [now], digestOf(code);
      return true;
    }

    /** Only the code of the latest message is accepted, once, and only for ten minutes. */
    method VerifyEmail(code: string, now: real) returns (accepted: bool)
      requires Valid() && latest <= now
      modifies this
      ensures Valid() && latest == now && registered == old(registered)
      ensures sends == old(sends) && lastSent == old(lastSent)
      ensures accepted <==>
        && old(registered) && !old(verified) && sends != []
        && digestOf(code) == lastSent && now < sends[|sends| - 1] + 600.0
        && !Locked(old(verification).value, now)
      ensures var v := old(verification);
              var compared := old(registered) && !old(verified) && v.Some? && Comparable(v.value, now);
              && accepted == (compared && digestOf(code) == v.value.digest)
              && verified == (old(verified) || accepted)
              && failures == (if compared && !accepted then old(failures) + [now] else old(failures))
              && verification == if accepted then None else if compared then Some(AfterFailure(v.value, now)) else v
    {
      LogsLater(failures, sends, latest, now);
      latest := now;
      if !registered || verified { return false; }
      if verification.None? { return false; }
      var v := verification.value;
      if v.lockedUntil.Some? && now < v.lockedUntil.value { return false; }
      if v.expiresAt <= now { return false; }
      if digestOf(code) != v.digest {
        RecordFailure(now);
        return false;
      }
      verified, verification := true, None;
      return true;
    }

    method RecordFailure(now: real)
      requires Valid() && registered && latest == now && verification.Some? && !Locked(verification.value, now)
      modifies this`verification, this`failures
      ensures Valid() && verification == Some(AfterFailure(old(verification.value), now))
      ensures failures == old(failures) + [now]
    {
      var v := verification.value;
      FailureIsCounted(v, failures, now);
      FailureIsValid(v, failures, sends, now);
      failures := failures + [now];
      var expired := v.failedWindowStartedAt.None? || now >= v.failedWindowStartedAt.value + FAILED_WINDOW;
      if expired {
        v := v.(failedWindowStartedAt := Some(now), failedAttempts := 1, lockedUntil := None);
      } else {
        v := v.(failedAttempts := v.failedAttempts + 1);
      }
      if v.failedAttempts >= MAX_FAILED_ATTEMPTS {
        v := v.(lockedUntil := Some(v.failedWindowStartedAt.value + FAILED_WINDOW));
      }
      verification := Some(v);
    }

    method RecordSend(digest: string, windowExpired: bool, now: real)
      requires verification.Some? && windowExpired == (verification.value.sendWindowStartedAt + SEND_WINDOW <= now)
      modifies this`verification
      ensures verification == Some(AfterSend(old(verification.value), digest, now))
    {
      var v := verification.value.(digest := digest, expiresAt := now + CODE_TTL, lastSentAt := now);
      if windowExpired {
        v := v.(sendWindowStartedAt := now, sendCount := 1);
      } else {
        v := v.(sendCount := v.sendCount + 1);
      }
      verification := Some(v);
    }

    /** Sends a new code when allowed; undone when the message cannot be delivered. */
    method ResendVerification(code: string, delivered: bool, now: real) returns (sent: bool)
      requires Valid() && latest <= now
      modifies this
      ensures Valid() && latest == now && registered == old(registered)
      ensures verified == old(verified) && failures == old(failures)
      ensures sent <==> (old(registered) && !old(verified) && delivered
                         && (old(verification).Some? ==> Sendable(old(verification).value, now)))
      ensures sends == if sent then old(sends) + [now] else old(sends)
      ensures lastSent == if sent then digestOf(code) else old(lastSent)
      ensures verification == if !sent then old(verification)
                              else if old(verification).Some?
                                  then Some(AfterSend(old(verification).value, digestOf(code), now))
                              else Some(Fresh(digestOf(code), now))
    {
      LogsLater(failures, sends, latest, now);
      latest := now;
      if !registered || verified { return false; }
      if verification.Some? {
        var v := verification.value;
        if now < v.lastSentAt + RESEND_COOLDOWN { return false; }
        var windowExpired := now >= v.sendWindowStartedAt + SEND_WINDOW;
        if !windowExpired && v.sendCount >= MAX_SENDS_PER_WINDOW { return false; }
        if !delivered { return false; }
        SendIsValid(v, digestOf(code), failures, sends, now);
        RecordSend(digestOf(code), windowExpired, now);
      } else {
        if !delivered { return false; }
        FirstSendIsCounted(digestOf(code), now);
        FirstSendIsValid(failures, now);
        verification := Some(Fresh(digestOf(code), now));
      }
      sends, lastSent := sends + [now], digestOf(code);
      return true;
    }
  }

  // ---- what the logs keep ----------------------------------------------------

  ghost predicate LogsAreValid(failures: seq<real>, sends: seq<real>, latest: real) {
    && Sorted(failures, latest) && HasWindows(failures, FAILED_WINDOW)
    && Sorted(sends, latest) && HasWindows(sends, SEND_WINDOW) && Spaced(sends, 1, RESEND_COOLDOWN)
  }

  lemma NoWindows(now: real)
    ensures LogsAreValid([], [], now)
  {
    assert Windowed([], [], FAILED_WINDOW) && Windowed([], [], SEND_WINDOW);
  }

  lemma LogsLater(failures: seq<real>, sends: seq<real>, latest: real, now: real)
    requires LogsAreValid(failures, sends, latest) && latest <= now
    ensures LogsAreValid(failures, sends, now)
  {
  }

  lemma FirstSendIsValid(failures: seq<real>, now: real)
    requires failures == []
    ensures LogsAreValid(failures, [now], now)
  {
    FirstSendIsCounted("", now);
    NoWindows(now);
  }

  lemma SendIsValid(v: Verification, digest: string, failures: seq<real>, sends: seq<real>, now: real)
    requires LogsAreValid(failures, sends, now) && SendsMatch(v, sends) && Sendable(v, now)
    ensures LogsAreValid(failures, sends + [now], now) && SendsMatch(AfterSend(v, digest, now), sends + [now])
  {
    SendIsCounted(v, digest, sends, now);
    assert (sends + [now])[..|sends|] == sends;
  }

  lemma FailureIsValid(v: Verification, failures: seq<real>, sends: seq<real>, now: real)
    requires LogsAreValid(failures, sends, now) && FailuresMatch(AfterFailure(v, now), failures + [now])
    ensures LogsAreValid(failures + [now], sends, now)
  {
    assert (failures + [now])[..|failures|] == failures;
  }

  /** In every life of an account: nine counted failures, nine messages, and a pause between messages. */
  lemma AccountLimits(a: Account, from: real)
    requires a.Valid()
    ensures CountIn(a.failures, from, from + FAILED_WINDOW) <= 9
    ensures CountIn(a.sends, from, from + SEND_WINDOW) <= 9
    ensures forall i :: 0 < i < |a.sends| ==> a.sends[i - 1] + RESEND_COOLDOWN <= a.sends[i]
  {
    AtMostNine(a.failures, FAILED_WINDOW, a.latest, from);
    AtMostNine(a.sends, SEND_WINDOW, a.latest, from);
    NeighboursAreSpaced(a.sends, RESEND_COOLDOWN);
  }

  lemma {:induction false} NeighboursAreSpaced(log: seq<real>, gap: real)
    requires Spaced(log, 1, gap)
    ensures forall i, j :: 0 <= i && j == i + 1 < |log| ==> log[i] + gap <= log[j]
  {
    if log != [] {
      NeighboursAreSpaced(log[..|log| - 1], gap);
    }
  }
}
