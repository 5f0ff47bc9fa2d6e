/** The figures and flags of a period in terms of its readings alone. */
module ConsumptionPlain {
  import opened Basics
  import opened Consumption

  // ---- trusted deltas ----------------------------------------------------------

  /** The reading compared with reading i: the one before it, or the baseline. */
  function Previous(kept: seq<Sample>, baseline: Option<Sample>, i: nat): Option<Sample>
    requires i < |kept|
  {
    if i == 0 then baseline else Some(kept[i - 1])
  }

  /** Both are numbers, neither is negative, and the second follows the first within the gap limit. */
  predicate Linked(a: Option<Sample>, b: Sample, maxGap: Time) {
    && a.Some? && a.value.value.Finite? && b.value.Finite? && 0.0 <= a.value.value.kwh && 0.0 <= b.value.kwh
    && 0 < b.at - a.value.at <= maxGap
  }

  predicate Rises(a: Option<Sample>, b: Sample, maxGap: Time) {
    Linked(a, b, maxGap) && a.value.value.kwh <= b.value.kwh
  }

  predicate Falls(a: Option<Sample>, b: Sample, maxGap: Time) {
    Linked(a, b, maxGap) && b.value.kwh < a.value.value.kwh
  }

  /** Reading i adds its rise, unless the reading before it was a fall. */
  predicate Trusted(kept: seq<Sample>, baseline: Option<Sample>, maxGap: Time, i: nat)
    requires i < |kept|
  {
    && Rises(Previous(kept, baseline, i), kept[i], maxGap)
    && !(i > 0 && Falls(Previous(kept, baseline, i - 1), kept[i - 1], maxGap))
  }

  function Rise(kept: seq<Sample>, baseline: Option<Sample>, maxGap: Time, i: nat): real
    requires i < |kept|
  {
    if Trusted(kept, baseline, maxGap, i) then kept[i].value.kwh - Previous(kept, baseline, i).value.value.kwh else 0.0
  }

  /** What the first n readings add up to, over those the condition selects. */
  function RisesOf(kept: seq<Sample>, baseline: Option<Sample>, maxGap: Time, n: nat, selects: Sample -> bool): real
    requires n <= |kept|
  {
    if n == 0 then 0.0
    else
      RisesOf(kept, baseline, maxGap, n - 1, selects)
      + if selects(kept[n - 1]) then Rise(kept, baseline, maxGap, n - 1) else 0.0
  }

  lemma TrustedIsCounted(kept: seq<Sample>, baseline: Option<Sample>, maxGap: Time, i: nat)
    requires i < |kept|
    ensures Trusted(kept, baseline, maxGap, i) <==> Counted(kept, baseline, maxGap, i)
    ensures Counted(kept, baseline, maxGap, i) ==> Rise(kept, baseline, maxGap, i) == Delta(kept, baseline, i)
  {
  }

  lemma CountedInPrefix(kept: seq<Sample>, baseline: Option<Sample>, maxGap: Time, n: nat, i: nat)
    requires i < n <= |kept|
    ensures Counted(kept[..n], baseline, maxGap, i) == Counted(kept, baseline, maxGap, i)
    ensures Counted(kept, baseline, maxGap, i) ==> Delta(kept[..n], baseline, i) == Delta(kept, baseline, i)
  {
    assert kept[..n][i] == kept[i] && (i > 0 ==> kept[..n][i - 1] == kept[i - 1]);
  }

  /** The period's total is the sum of all its trusted rises. */
  lemma {:induction false} TotalIsRises(kept: seq<Sample>, baseline: Option<Sample>, maxGap: Time, n: nat)
    requires n <= |kept|
    ensures Total(kept[..n], baseline, maxGap) == RisesOf(kept, baseline, maxGap, n, _ => true)
  {
    if n > 0 {
      TotalIsRises(kept, baseline, maxGap, n - 1);
      assert kept[..n][..n - 1] == kept[..n - 1];
      CountedInPrefix(kept, baseline, maxGap, n, n - 1);
      TrustedIsCounted(kept, baseline, maxGap, n - 1);
    }
  }

  /** A bucket's total is the sum of the trusted rises of its span, and unknown when it has none. */
  lemma {:induction false} BucketTotalIsRises(kept: seq<Sample>, baseline: Option<Sample>, p: Period, b: Time, n: nat)
    requires p.resolution > 0 && n <= |kept| && OnGrid(b, p)
    requires forall i :: 0 <= i < |kept| ==> p.from <= kept[i].at
    ensures BucketTotal(kept[..n], baseline, p, b).GetOr(0.0)
         == RisesOf(kept, baseline, p.maxGap, n, (s: Sample) => InSpan(b, s.at, p))
    ensures BucketTotal(kept[..n], baseline, p, b).Some?
       <==> exists i :: 0 <= i < n && InSpan(b, kept[i].at, p) && Trusted(kept, baseline, p.maxGap, i)
  {
    if n > 0 {
      BucketTotalIsRises(kept, baseline, p, b, n - 1);
      assert kept[..n][..n - 1] == kept[..n - 1] && kept[..n][n - 1] == kept[n - 1];
      CountedInPrefix(kept, baseline, p.maxGap, n, n - 1);
      TrustedIsCounted(kept, baseline, p.maxGap, n - 1);
      BucketIsTheSpan(kept[n - 1].at, p, b);
    }
  }

  // ---- a complete period -------------------------------------------------------

  function InPeriod(samples: seq<Sample>, p: Period): seq<Sample> {
    if samples == [] then []
    else
      var last, earlier := samples[|samples| - 1], InPeriod(samples[..|samples| - 1], p);
      if p.from <= last.at < p.to then earlier + [last] else earlier
  }

  /** Every reading of the period rises from the one before it, none is missing or repeated. */
  predicate Unbroken(inside: seq<Sample>, baseline: Option<Sample>, maxGap: Time) {
    forall i :: 0 <= i < |inside| ==> Rises(Previous(inside, baseline, i), inside[i], maxGap)
  }

  lemma UnbrokenMore(inside: seq<Sample>, s: Sample, baseline: Option<Sample>, maxGap: Time)
    ensures Unbroken(inside + [s], baseline, maxGap)
       <==> Unbroken(inside, baseline, maxGap) && Rises(Previous(inside + [s], baseline, |inside|), s, maxGap)
  {
    var more := inside + [s];
    forall i | 0 <= i < |inside|
      ensures Previous(more, baseline, i) == Previous(inside, baseline, i) && more[i] == inside[i]
    {
    }
    assert more[|inside|] == s;
  }

  lemma UnbrokenIsRising(inside: seq<Sample>, baseline: Option<Sample>, maxGap: Time)
    requires Unbroken(inside, baseline, maxGap) && inside != []
    ensures |inside| > 1 ==> inside[|inside| - 2].at < inside[|inside| - 1].at
    ensures Usable(inside[|inside| - 1])
    ensures forall i :: 0 <= i < |inside| ==> !Falls(Previous(inside, baseline, i), inside[i], maxGap)
  {
    assert Rises(Previous(inside, baseline, |inside| - 1), inside[|inside| - 1], maxGap);
  }

  /** No bucket is flawed exactly when the readings of the period are unbroken; then all of them are kept. */
  lemma {:induction false} FlawlessIffUnbroken(samples: seq<Sample>, baseline: Option<Sample>, p: Period)
    requires p.resolution > 0
    ensures FlawedBuckets(samples, baseline, p) == {} <==> Unbroken(InPeriod(samples, p), baseline, p.maxGap)
    ensures FlawedBuckets(samples, baseline, p) == {} ==> Kept(samples, p) == InPeriod(samples, p)
  {
    if samples != [] {
      var n := |samples| - 1;
      var last, earlier := samples[n], InPeriod(samples[..n], p);
      FlawlessIffUnbroken(samples[..n], baseline, p);
      if Within(last, p) {
        UnbrokenMore(earlier, last, baseline, p.maxGap);
        if FlawedBuckets(samples[..n], baseline, p) == {} {
          LastIsFlawless(samples, earlier, last, baseline, p);
        }
      }
      assert FlawedBuckets(samples, baseline, p) == {}
        <==> FlawedBuckets(samples[..n], baseline, p) == {} && !LastFlawed(samples, baseline, p);
    }
  }

  lemma {:induction false} LastIsFlawless(
    samples: seq<Sample>, earlier: seq<Sample>, last: Sample, baseline: Option<Sample>, p: Period)
    requires samples != [] && last == samples[|samples| - 1] && Within(last, p)
    requires earlier == Kept(samples[..|samples| - 1], p) && Unbroken(earlier, baseline, p.maxGap)
    ensures !LastFlawed(samples, baseline, p)
       <==> Rises(Previous(earlier + [last], baseline, |earlier|), last, p.maxGap)
    ensures !LastFlawed(samples, baseline, p) ==> Kept(samples, p) == earlier + [last]
  {
    var more := earlier + [last];
    if earlier != [] {
      UnbrokenIsRising(earlier, baseline, p.maxGap);
      assert Previous(more, baseline, |earlier| - 1) == Previous(earlier, baseline, |earlier| - 1);
    }
    TrustedIsCounted(more, baseline, p.maxGap, |earlier|);
    assert Kept(samples, p) == earlier || Kept(samples, p) == more;
  }

  /** A period is not partial exactly when its readings are unbroken and reach close enough to its end. */
  lemma CompleteIff(samples: seq<Sample>, baseline: Option<Sample>, p: Period)
    requires p.resolution > 0
    ensures FlawedBuckets(samples, baseline, p) == {} && !LateEnd(samples, p)
       <==> var inside := InPeriod(samples, p);
            && inside != [] && Unbroken(inside, baseline, p.maxGap) && p.to - inside[|inside| - 1].at <= p.maxGap
  {
    FlawlessIffUnbroken(samples, baseline, p);
  }
}
