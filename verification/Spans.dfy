/** Logs of instants in seconds, and how many of them a span of time can hold. */
module Spans {
  ghost predicate Sorted(log: seq<real>, now: real) {
    log == [] || (Sorted(log[..|log| - 1], log[|log| - 1]) && log[|log| - 1] <= now)
  }

  /** Entries n apart in the log are at least `width` apart in time. */
  ghost predicate Spaced(log: seq<real>, n: nat, width: real) {
    log == [] ||
    var last := |log| - 1;
    Spaced(log[..last], n, width) && (n <= last ==> log[last - n] + width <= log[last])
  }

  /** Entries of a log in a half-open span. */
  function CountIn(log: seq<real>, from: real, to: real): nat {
    if log == [] then 0
    else CountIn(log[..|log| - 1], from, to) + if from <= log[|log| - 1] < to then 1 else 0
  }

  lemma {:induction false} SortedPairs(log: seq<real>, now: real)
    requires Sorted(log, now)
    ensures forall i :: 0 <= i < |log| ==> log[i] <= now
    ensures forall i, j :: 0 <= i < j < |log| ==> log[i] <= log[j]
  {
    if log != [] {
      var n := |log| - 1;
      SortedPairs(log[..n], log[n]);
      assert forall i :: 0 <= i < n ==> log[i] == log[..n][i];
    }
  }

  /** When nothing comes after the span, what it counts is the end of the log. */
  lemma {:induction false} CountIsARange(log: seq<real>, now: real, from: real, to: real)
    requires Sorted(log, now)
    ensures CountIn(log, from, to) <= |log|
    ensures log != [] && log[|log| - 1] < to ==>
              forall i :: |log| - CountIn(log, from, to) <= i < |log| ==> from <= log[i]
  {
    if log != [] {
      CountIsARange(log[..|log| - 1], log[|log| - 1], from, to);
      SortedPairs(log, now);
    }
  }

  /** No half-open span of that width holds more than n entries of a spaced log. */
  lemma {:induction false} NoSpanHoldsMore(log: seq<real>, now: real, n: nat, width: real, from: real)
    requires Sorted(log, now) && Spaced(log, n, width) && n > 0
    ensures CountIn(log, from, from + width) <= n
  {
    if log != [] {
      var last := |log| - 1;
      var to := from + width;
      NoSpanHoldsMore(log[..last], log[last], n, width, from);
      CountIsARange(log[..last], log[last], from, to);
      SortedPairs(log, now);
      if CountIn(log[..last], from, to) == n && log[..last][last - 1] < to {
        assert from <= log[..last][last - n];
      }
    }
  }
}
