/** What the buckets of a period add up to, and what cutting the period changes. */
module ConsumptionLaws {
  import opened Basics
  import opened Consumption

  // ---- the sum of the known buckets ----------------------------------------

  /** The period's figure: the sum of the table's known values. */
  ghost function KnownSum(totals: map<Time, Option<real>>): real {
    var buckets := totals.Keys;
    if buckets == {} then 0.0
    else
      NonEmptyHasElement(buckets);
      var b :| b in buckets;
      totals[b].GetOr(0.0) + KnownSum(totals - {b})
  }

  lemma {:induction false} PickAny(totals: map<Time, Option<real>>, b: Time)
    requires b in totals
    ensures KnownSum(totals) == totals[b].GetOr(0.0) + KnownSum(totals - {b})
    decreases |totals|
  {
    var c :| c in totals && KnownSum(totals) == totals[c].GetOr(0.0) + KnownSum(totals - {c});
    if b != c {
      PickAny(totals - {c}, b);
      PickAny(totals - {b}, c);
      assert totals - {c} - {b} == totals - {b} - {c};
    }
  }

  function Table(buckets: set<Time>, kept: seq<Sample>, baseline: Option<Sample>, p: Period): map<Time, Option<real>>
    requires p.resolution > 0
  {
    map b | b in buckets :: BucketTotal(kept, baseline, p, b)
  }

  lemma {:induction false} EmptyTable(totals: map<Time, Option<real>>)
    requires forall b :: b in totals ==> totals[b] == None
    ensures KnownSum(totals) == 0.0
    decreases |totals|
  {
    var buckets := totals.Keys;
    if buckets != {} {
      NonEmptyHasElement(buckets);
      var b :| b in buckets;
      PickAny(totals, b);
      EmptyTable(totals - {b});
    }
  }

  lemma {:induction false} TableSumsToTotal(buckets: set<Time>, kept: seq<Sample>, baseline: Option<Sample>, p: Period)
    requires p.resolution > 0
    requires forall i :: 0 <= i < |kept| ==> BucketOf(kept[i].at, p) in buckets
    ensures KnownSum(Table(buckets, kept, baseline, p)) == Total(kept, baseline, p.maxGap)
  {
    if kept == [] {
      EmptyTable(Table(buckets, kept, baseline, p));
    } else {
      var n := |kept| - 1;
      var s, b := kept[n], BucketOf(kept[n].at, p);
      var earlier, table := Table(buckets, kept[..n], baseline, p), Table(buckets, kept, baseline, p);
      assert kept == kept[..n] + [s];
      assert forall i :: 0 <= i < n ==> kept[..n][i] == kept[i];
      TableSumsToTotal(buckets, kept[..n], baseline, p);
      assert earlier - {b} == table - {b};
      assert b in buckets;
      PickAny(earlier, b);
      PickAny(table, b);
    }
  }

  lemma {:induction false} KeptIsBucketed(samples: seq<Sample>, p: Period)
    requires p.resolution > 0
    ensures forall i :: 0 <= i < |Kept(samples, p)| ==> BucketOf(Kept(samples, p)[i].at, p) in Buckets(samples, p)
  {
    if samples != [] {
      KeptIsBucketed(samples[..|samples| - 1], p);
    }
  }

  /** Every kWh of the period is counted in exactly one bucket. */
  lemma BucketsSumToTotal(samples: seq<Sample>, baseline: Option<Sample>, p: Period, totals: map<Time, Option<real>>)
    requires p.resolution > 0
    requires totals.Keys == Buckets(samples, p)
    requires forall b :: b in totals ==> totals[b] == BucketTotal(Kept(samples, p), baseline, p, b)
    ensures KnownSum(totals) == Total(Kept(samples, p), baseline, p.maxGap)
  {
    KeptIsBucketed(samples, p);
    assert totals == Table(Buckets(samples, p), Kept(samples, p), baseline, p);
    TableSumsToTotal(Buckets(samples, p), Kept(samples, p), baseline, p);
  }

  /** A bucket is unknown exactly when none of its samples brings a trusted delta. */
  lemma {:induction false} KnownIffCounted(kept: seq<Sample>, baseline: Option<Sample>, p: Period, b: Time)
    requires p.resolution > 0
    ensures BucketTotal(kept, baseline, p, b).Some?
       <==> exists i :: 0 <= i < |kept| && BucketOf(kept[i].at, p) == b && Counted(kept, baseline, p.maxGap, i)
  {
    if kept != [] {
      var n := |kept| - 1;
      KnownIffCounted(kept[..n], baseline, p, b);
      forall i | 0 <= i < n
        ensures Counted(kept[..n], baseline, p.maxGap, i) == Counted(kept, baseline, p.maxGap, i)
        ensures kept[..n][i] == kept[i]
      {
      }
      if exists i :: 0 <= i < n && BucketOf(kept[i].at, p) == b && Counted(kept, baseline, p.maxGap, i) {
        var i :| 0 <= i < n && BucketOf(kept[i].at, p) == b && Counted(kept, baseline, p.maxGap, i);
        assert BucketOf(kept[..n][i].at, p) == b && Counted(kept[..n], baseline, p.maxGap, i);
      }
    }
  }

  lemma {:induction false} KeptIgnoresResolution(samples: seq<Sample>, p: Period, resolution: int)
    ensures Kept(samples, p) == Kept(samples, p.(resolution := resolution))
  {
    if samples != [] {
      KeptIgnoresResolution(samples[..|samples| - 1], p, resolution);
    }
  }

  /** The figure does not depend on how finely the period is displayed. */
  lemma SameForEveryResolution(
    samples: seq<Sample>, baseline: Option<Sample>, p: Period, q: Period,
    coarse: map<Time, Option<real>>, fine: map<Time, Option<real>>)
    requires p.resolution > 0 && q.resolution > 0 && q == p.(resolution := q.resolution)
    requires coarse.Keys == Buckets(samples, p) && fine.Keys == Buckets(samples, q)
    requires forall b :: b in coarse ==> coarse[b] == BucketTotal(Kept(samples, p), baseline, p, b)
    requires forall b :: b in fine ==> fine[b] == BucketTotal(Kept(samples, q), baseline, q, b)
    ensures KnownSum(coarse) == KnownSum(fine)
  {
    KeptIgnoresResolution(samples, p, q.resolution);
    BucketsSumToTotal(samples, baseline, p, coarse);
    BucketsSumToTotal(samples, baseline, q, fine);
  }

  // ---- a complete period ---------------------------------------------------

  lemma {:induction false} AllCounted(samples: seq<Sample>, baseline: Option<Sample>, p: Period)
    requires p.resolution > 0 && FlawedBuckets(samples, baseline, p) == {}
    ensures forall i :: 0 <= i < |Kept(samples, p)| ==> Counted(Kept(samples, p), baseline, p.maxGap, i)
  {
    if samples != [] {
      var n := |samples| - 1;
      assert FlawedBuckets(samples[..n], baseline, p) <= FlawedBuckets(samples, baseline, p);
      AllCounted(samples[..n], baseline, p);
      var kept, earlier := Kept(samples, p), Kept(samples[..n], p);
      assert !LastFlawed(samples, baseline, p);
      forall i | 0 <= i < |kept|
        ensures Counted(kept, baseline, p.maxGap, i)
      {
        if i < |earlier| {
          assert Counted(earlier, baseline, p.maxGap, i);
        }
      }
    }
  }

  lemma {:induction false} CountedTelescopes(kept: seq<Sample>, baseline: Option<Sample>, maxGap: Time)
    requires kept != [] && forall i :: 0 <= i < |kept| ==> Counted(kept, baseline, maxGap, i)
    ensures baseline.Some? && Usable(baseline.value) && Usable(kept[|kept| - 1])
    ensures Total(kept, baseline, maxGap) == kept[|kept| - 1].value.kwh - baseline.value.value.kwh
  {
    var n := |kept| - 1;
    assert Counted(kept, baseline, maxGap, n) && Counted(kept, baseline, maxGap, 0);
    if n > 0 {
      forall i | 0 <= i < n
        ensures Counted(kept[..n], baseline, maxGap, i)
      {
        assert Counted(kept, baseline, maxGap, i);
      }
      CountedTelescopes(kept[..n], baseline, maxGap);
    } else {
      assert Total(kept[..0], baseline, maxGap) == 0.0;
    }
  }

  /** A period not flagged partial is exactly last reading minus baseline. */
  lemma CompletePeriodIsExact(samples: seq<Sample>, baseline: Option<Sample>, p: Period)
    requires p.resolution > 0 && FlawedBuckets(samples, baseline, p) == {} && !LateEnd(samples, p)
    ensures var kept := Kept(samples, p);
            && kept != [] && Usable(kept[|kept| - 1]) && baseline.Some? && Usable(baseline.value)
            && Total(kept, baseline, p.maxGap) == kept[|kept| - 1].value.kwh - baseline.value.value.kwh
            && p.to - kept[|kept| - 1].at <= p.maxGap
  {
    AllCounted(samples, baseline, p);
    CountedTelescopes(Kept(samples, p), baseline, p.maxGap);
  }

  // ---- cutting a period ----------------------------------------------------

  /** Stored readings of one channel: the unique constraint makes them strictly ordered. */
  ghost predicate Ordered(readings: seq<Sample>) {
    forall i, j :: 0 <= i < j < |readings| ==> readings[i].at < readings[j].at
  }

  /** The latest reading before an instant, whatever its value. */
  function Latest(readings: seq<Sample>, instant: Time): Option<Sample> {
    if readings == [] then None
    else if readings[|readings| - 1].at < instant then Some(readings[|readings| - 1])
    else Latest(readings[..|readings| - 1], instant)
  }

  /** The consumption the history shows for a period of the stored readings. */
  function PeriodTotal(readings: seq<Sample>, p: Period): real {
    Total(Kept(readings, p), Latest(readings, p.from), p.maxGap)
  }

  lemma {:induction false} KeptAreWithin(samples: seq<Sample>, p: Period)
    ensures forall s :: s in Kept(samples, p) ==> s in samples && Within(s, p)
  {
    if samples != [] {
      KeptAreWithin(samples[..|samples| - 1], p);
      assert forall s :: s in samples[..|samples| - 1] ==> s in samples;
    }
  }

  /** The readings of [from, to), in order. */
  function Inside(readings: seq<Sample>, from: Time, to: Time): seq<Sample> {
    if readings == [] then []
    else
      var last := readings[|readings| - 1];
      Inside(readings[..|readings| - 1], from, to) + if from <= last.at < to then [last] else []
  }

  lemma {:induction false} KeptIsInside(readings: seq<Sample>, p: Period)
    requires Ordered(readings)
    ensures Kept(readings, p) == Inside(readings, p.from, p.to)
  {
    if readings != [] {
      var n := |readings| - 1;
      KeptIsInside(readings[..n], p);
      KeptAreWithin(readings[..n], p);
      var kept := Kept(readings[..n], p);
      if kept != [] {
        assert kept[|kept| - 1] in kept;
      }
    }
  }

  lemma {:induction false} NothingInside(readings: seq<Sample>, from: Time, to: Time)
    requires forall s :: s in readings ==> s.at < from
    ensures Inside(readings, from, to) == []
    ensures readings != [] ==> Latest(readings, from) == Some(readings[|readings| - 1])
  {
    if readings != [] {
      NothingInside(readings[..|readings| - 1], from, to);
    }
  }

  lemma {:induction false} InsideSplits(readings: seq<Sample>, from: Time, cut: Time, to: Time)
    requires Ordered(readings) && from <= cut <= to
    ensures Inside(readings, from, to) == Inside(readings, from, cut) + Inside(readings, cut, to)
  {
    if readings != [] {
      var n := |readings| - 1;
      var last := readings[n];
      InsideSplits(readings[..n], from, cut, to);
      var first, second := Inside(readings[..n], from, cut), Inside(readings[..n], cut, to);
      if last.at < cut {
        NothingInside(readings[..n], cut, to);
        assert second == [] && Inside(readings, cut, to) == [];
      } else {
        assert Inside(readings, from, cut) == first;
        assert first + (second + [last]) == first + second + [last];
      }
    }
  }

  lemma {:induction false} LatestAtCut(readings: seq<Sample>, from: Time, cut: Time)
    requires Ordered(readings) && from <= cut
    ensures var first := Inside(readings, from, cut);
            Latest(readings, cut) == if first == [] then Latest(readings, from) else Some(first[|first| - 1])
  {
    if readings != [] {
      var n := |readings| - 1;
      LatestAtCut(readings[..n], from, cut);
      if readings[n].at < from {
        NothingInside(readings[..n], from, cut);
      }
    }
  }

  /** What the second part counts that the whole does not: the first delta after a decrease. */
  function Excess(first: seq<Sample>, second: seq<Sample>, baseline: Option<Sample>, maxGap: Time): (e: real)
    ensures e >= 0.0
  {
    if first != [] && second != []
       && Decrease(first, baseline, maxGap, |first| - 1)
       && Counted(second, Some(first[|first| - 1]), maxGap, 0)
    then Delta(second, Some(first[|first| - 1]), 0)
    else 0.0
  }

  /** Past its first sample, the second part is judged as inside the whole. */
  lemma CountedInWhole(first: seq<Sample>, second: seq<Sample>, baseline: Option<Sample>, maxGap: Time, i: nat)
    requires 0 < i < |second|
    ensures var carried := if first == [] then baseline else Some(first[|first| - 1]);
            && Before(first + second, baseline, |first| + i) == Before(second, carried, i)
            && Counted(first + second, baseline, maxGap, |first| + i) == Counted(second, carried, maxGap, i)
  {
    var whole := first + second;
    assert whole[|first| + i] == second[i] && whole[|first| + i - 1] == second[i - 1];
    assert i > 1 ==> whole[|first| + i - 2] == second[i - 2];
    assert i == 1 && first != [] ==> whole[|first| - 1] == first[|first| - 1];
  }

  /** Its first sample alone may be judged differently. */
  lemma FirstAfterCut(first: seq<Sample>, s: Sample, baseline: Option<Sample>, maxGap: Time)
    requires first != []
    ensures var carried := Some(first[|first| - 1]);
            && Before(first + [s], baseline, |first|) == carried
            && Counted(first + [s], baseline, maxGap, |first|)
               == (Counted([s], carried, maxGap, 0) && !Decrease(first, baseline, maxGap, |first| - 1))
  {
    var whole, n := first + [s], |first|;
    assert whole[n - 1] == first[n - 1];
    assert n > 1 ==> whole[n - 2] == first[n - 2];
    assert Decrease(whole, baseline, maxGap, n - 1) == Decrease(first, baseline, maxGap, n - 1);
  }

  lemma {:induction false} TotalSplits(first: seq<Sample>, second: seq<Sample>, baseline: Option<Sample>, maxGap: Time)
    ensures var carried := if first == [] then baseline else Some(first[|first| - 1]);
            Total(first, baseline, maxGap) + Total(second, carried, maxGap)
            == Total(first + second, baseline, maxGap) + Excess(first, second, baseline, maxGap)
  {
    var carried := if first == [] then baseline else Some(first[|first| - 1]);
    if second == [] || first == [] {
      assert first + second == if second == [] then first else second;
    } else {
      var n := |second| - 1;
      assert (first + second)[..|first| + n] == first + second[..n];
      TotalSplits(first, second[..n], baseline, maxGap);
      if n > 0 {
        CountedInWhole(first, second, baseline, maxGap, n);
        SameExcess(first, second, baseline, maxGap);
      } else {
        FirstAfterCut(first, second[0], baseline, maxGap);
        assert second == [second[0]];
      }
    }
  }

  lemma SameExcess(first: seq<Sample>, second: seq<Sample>, baseline: Option<Sample>, maxGap: Time)
    requires |second| > 1
    ensures Excess(first, second[..|second| - 1], baseline, maxGap) == Excess(first, second, baseline, maxGap)
  {
    var shorter := second[..|second| - 1];
    assert shorter[0] == second[0];
    if first != [] {
      assert Counted(shorter, Some(first[|first| - 1]), maxGap, 0)
          == Counted(second, Some(first[|first| - 1]), maxGap, 0);
    }
  }

  /**
   Cutting a period anywhere never loses energy. It gains some exactly when the
   last reading before the cut is a decrease and the next one rises from it,
   and then exactly that first delta.
   */
  lemma CutNeverCountsLess(readings: seq<Sample>, p: Period, cut: Time)
    requires Ordered(readings) && p.from <= cut <= p.to
    ensures var first, second := Kept(readings, p.(to := cut)), Kept(readings, p.(from := cut));
            var parts := PeriodTotal(readings, p.(to := cut)) + PeriodTotal(readings, p.(from := cut));
            var baseline := Latest(readings, p.from);
            var resumed := first != [] && second != [] && Decrease(first, baseline, p.maxGap, |first| - 1)
                           && Continuous(second, Latest(readings, cut), p.maxGap, 0);
            && parts >= PeriodTotal(readings, p)
            && (parts > PeriodTotal(readings, p) <==> resumed && Delta(second, Latest(readings, cut), 0) > 0.0)
            && (resumed && Delta(second, Latest(readings, cut), 0) >= 0.0 ==>
                  parts == PeriodTotal(readings, p) + Delta(second, Latest(readings, cut), 0))
  {
    KeptIsInside(readings, p);
    KeptIsInside(readings, p.(to := cut));
    KeptIsInside(readings, p.(from := cut));
    InsideSplits(readings, p.from, cut, p.to);
    LatestAtCut(readings, p.from, cut);
    TotalSplits(Kept(readings, p.(to := cut)), Kept(readings, p.(from := cut)), Latest(readings, p.from), p.maxGap);
  }
}
