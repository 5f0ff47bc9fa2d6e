/**
 Energy consumed over a period, from counter readings: one streaming pass with
 gap, reset and duplicate handling, proved to be a plain sum of trusted deltas.
 */
module Consumption {
  import opened Basics

  /** A stored counter value; what is not a finite number cannot be compared. */
  datatype Value = Null | NonFinite | Finite(kwh: real)
  datatype Sample = Sample(at: Time, value: Value)
  /** resolution is a number of seconds; maxGap is a duration. */
  datatype Period = Period(from: Time, to: Time, resolution: int, maxGap: Time)

  predicate Usable(s: Sample) { s.value.Finite? && s.value.kwh >= 0.0 }

  predicate Within(s: Sample, p: Period) { p.from <= s.at < p.to }

  /** Start of the bucket an instant falls in, counting whole seconds from the period's start. */
  function BucketOf(at: Time, p: Period): Time
    requires p.resolution > 0
  {
    p.from + (at - p.from) / SECOND / p.resolution * p.resolution * SECOND
  }

  lemma BucketContains(at: Time, p: Period)
    requires p.resolution > 0 && p.from <= at
    ensures BucketOf(at, p) <= at < BucketOf(at, p) + p.resolution * SECOND
  {
    var seconds := (at - p.from) / SECOND;
    var index := seconds / p.resolution;
    assert seconds == index * p.resolution + seconds % p.resolution;
    assert BucketOf(at, p) == p.from + (index * p.resolution) * SECOND;
    assert (index * p.resolution) * SECOND <= seconds * SECOND;
    assert seconds + 1 <= index * p.resolution + p.resolution;
    assert (seconds + 1) * SECOND <= (index * p.resolution + p.resolution) * SECOND;
  }

  // ---- the grid of buckets -------------------------------------------------

  function Width(p: Period): Time { p.resolution * SECOND }

  function GridPoint(p: Period, k: nat): Time { p.from + k * Width(p) }

  /** A whole number of resolutions after the period's start. */
  ghost predicate OnGrid(b: Time, p: Period) { exists k: nat :: b == GridPoint(p, k) }

  predicate InSpan(b: Time, at: Time, p: Period) { b <= at < b + Width(p) }

  /** Some sample of the period lies in the span beginning at b. */
  ghost predicate HasSampleIn(samples: seq<Sample>, p: Period, b: Time) {
    exists i :: 0 <= i < |samples| && Within(samples[i], p) && InSpan(b, samples[i].at, p)
  }

  /** The spans of two grid points share no instant. */
  lemma SpansAreDisjoint(p: Period, b: Time, c: Time, at: Time)
    requires p.resolution > 0 && OnGrid(b, p) && OnGrid(c, p) && InSpan(b, at, p) && InSpan(c, at, p)
    ensures b == c
  {
    var j: nat :| b == GridPoint(p, j);
    var k: nat :| c == GridPoint(p, k);
    GridIsSpaced(p, j, k);
    GridIsSpaced(p, k, j);
  }

  lemma GridIsSpaced(p: Period, j: nat, k: nat)
    requires p.resolution > 0
    ensures j < k ==> GridPoint(p, j) + Width(p) <= GridPoint(p, k)
  {
    if j < k {
      assert (j + 1) * Width(p) <= k * Width(p);
    }
  }

  /** The bucket of an instant is the one grid point whose span contains it. */
  lemma BucketIsTheSpan(at: Time, p: Period, b: Time)
    requires p.resolution > 0 && p.from <= at
    ensures b == BucketOf(at, p) <==> OnGrid(b, p) && InSpan(b, at, p)
  {
    var index: nat := (at - p.from) / SECOND / p.resolution;
    assert BucketOf(at, p) == p.from + index * p.resolution * SECOND == p.from + index * (p.resolution * SECOND);
    assert BucketOf(at, p) == GridPoint(p, index);
    BucketContains(at, p);
    if OnGrid(b, p) && InSpan(b, at, p) {
      SpansAreDisjoint(p, b, BucketOf(at, p), at);
    }
  }

  /** The buckets opened are the grid points with a sample in their span. */
  lemma {:induction false} BucketsAreTheGrid(samples: seq<Sample>, p: Period, b: Time)
    requires p.resolution > 0
    ensures b in Buckets(samples, p) <==> OnGrid(b, p) && HasSampleIn(samples, p, b)
  {
    if samples != [] {
      var n := |samples| - 1;
      var last := samples[n];
      BucketsAreTheGrid(samples[..n], p, b);
      assert forall i :: 0 <= i < n ==> samples[..n][i] == samples[i];
      if Within(last, p) {
        BucketIsTheSpan(last.at, p, b);
      }
      assert HasSampleIn(samples, p, b)
        <==> HasSampleIn(samples[..n], p, b) || (Within(last, p) && InSpan(b, last.at, p));
    }
  }

  // ---- what is counted -----------------------------------------------------

  /** The samples of the period that are later than every sample before them. */
  function Kept(samples: seq<Sample>, p: Period): seq<Sample> {
    if samples == [] then []
    else
      var last := samples[|samples| - 1];
      var earlier := Kept(samples[..|samples| - 1], p);
      if Within(last, p) && (earlier == [] || earlier[|earlier| - 1].at < last.at) then earlier + [last] else earlier
  }

  function Before(kept: seq<Sample>, baseline: Option<Sample>, i: nat): Option<Sample>
    requires i < |kept|
  {
    if i == 0 then baseline else Some(kept[i - 1])
  }

  /** Two usable readings close enough for their difference to mean anything. */
  predicate Continuous(kept: seq<Sample>, baseline: Option<Sample>, maxGap: Time, i: nat)
    requires i < |kept|
  {
    var before := Before(kept, baseline, i);
    && Usable(kept[i])
    && before.Some?
    && Usable(before.value)
    && 0 < kept[i].at - before.value.at <= maxGap
  }

  function Delta(kept: seq<Sample>, baseline: Option<Sample>, i: nat): real
    requires i < |kept| && Usable(kept[i])
    requires Before(kept, baseline, i).Some? && Usable(Before(kept, baseline, i).value)
  {
    kept[i].value.kwh - Before(kept, baseline, i).value.value.kwh
  }

  predicate Decrease(kept: seq<Sample>, baseline: Option<Sample>, maxGap: Time, i: nat)
    requires i < |kept|
  {
    Continuous(kept, baseline, maxGap, i) && Delta(kept, baseline, i) < 0.0
  }

  predicate Counted(kept: seq<Sample>, baseline: Option<Sample>, maxGap: Time, i: nat)
    requires i < |kept|
  {
    && Continuous(kept, baseline, maxGap, i)
    && Delta(kept, baseline, i) >= 0.0
    && (i > 0 ==> !Decrease(kept, baseline, maxGap, i - 1))
  }

  /** The declarative total: the sum of the counted deltas. */
  function Total(kept: seq<Sample>, baseline: Option<Sample>, maxGap: Time): real {
    if kept == [] then 0.0
    else
      var n := |kept| - 1;
      Total(kept[..n], baseline, maxGap) + if Counted(kept, baseline, maxGap, n) then Delta(kept, baseline, n) else 0.0
  }

  /** The same sum restricted to one bucket, unknown when the bucket counts nothing. */
  function BucketTotal(kept: seq<Sample>, baseline: Option<Sample>, p: Period, bucket: Time): (sum: Option<real>)
    requires p.resolution > 0
    ensures sum.Some? ==> sum.value >= 0.0
  {
    if kept == [] then None
    else
      var n := |kept| - 1;
      var earlier := BucketTotal(kept[..n], baseline, p, bucket);
      if BucketOf(kept[n].at, p) == bucket && Counted(kept, baseline, p.maxGap, n)
      then Some(earlier.GetOr(0.0) + Delta(kept, baseline, n))
      else earlier
  }

  /** The buckets in which the period has a sample. */
  function Buckets(samples: seq<Sample>, p: Period): set<Time>
    requires p.resolution > 0
  {
    if samples == [] then {}
    else
      var last := samples[|samples| - 1];
      Buckets(samples[..|samples| - 1], p) + if Within(last, p) then {BucketOf(last.at, p)} else {}
  }

  /** The last sample brings no trusted delta: repeated, unusable, after a gap or around a decrease. */
  predicate LastFlawed(samples: seq<Sample>, baseline: Option<Sample>, p: Period)
    requires samples != []
  {
    var n := |samples| - 1;
    var earlier, kept := Kept(samples[..n], p), Kept(samples, p);
    Within(samples[n], p) && (kept == earlier || kept == [] || !Counted(kept, baseline, p.maxGap, |kept| - 1))
  }

  /** The buckets some sample of the period leaves incomplete. */
  function FlawedBuckets(samples: seq<Sample>, baseline: Option<Sample>, p: Period): set<Time>
    requires p.resolution > 0
  {
    if samples == [] then {}
    else
      var n := |samples| - 1;
      FlawedBuckets(samples[..n], baseline, p)
      + if LastFlawed(samples, baseline, p) then {BucketOf(samples[n].at, p)} else {}
  }

  /** The period ends long after its last reading, or has none. */
  predicate LateEnd(samples: seq<Sample>, p: Period) {
    var kept := Kept(samples, p);
    kept == [] || p.to - kept[|kept| - 1].at > p.maxGap
  }

  function LastWithin(samples: seq<Sample>, p: Period): Option<Sample> {
    if samples == [] then None
    else if Within(samples[|samples| - 1], p) then Some(samples[|samples| - 1])
    else LastWithin(samples[..|samples| - 1], p)
  }

  // ---- the streaming pass --------------------------------------------------

  /** Compares a new sample with the carried reference and carries the next one. */
  method Compare(
    s: Sample, previous: Option<Sample>, recovering: bool, maxGap: Time,
    ghost kept: seq<Sample>, ghost baseline: Option<Sample>)
    returns (delta: Option<real>, previous': Option<Sample>, recovering': bool)
    requires Carried(previous, recovering, kept, baseline, maxGap)
    ensures delta == if Counted(kept + [s], baseline, maxGap, |kept|)
                     then Some(Delta(kept + [s], baseline, |kept|)) else None
    ensures Carried(previous', recovering', kept + [s], baseline, maxGap)
  {
    ghost var n := |kept|;
    assert n > 0 ==> Decrease(kept + [s], baseline, maxGap, n - 1) == Decrease(kept, baseline, maxGap, n - 1);
    delta, recovering' := None, false;
    if !Usable(s) { return None, None, false; }
    previous' := Some(s);
    if previous.None? { return; }
    var elapsed := s.at - previous.value.at;
    if !Usable(previous.value) || !(0 < elapsed <= maxGap) {
      return;
    } else if s.value.kwh < previous.value.value.kwh {
      recovering' := true;
    } else if recovering {
      return;
    } else {
      delta := Some(s.value.kwh - previous.value.value.kwh);
    }
  }

  /** What the loop variables mean after the samples kept so far. */
  ghost predicate Carried(
    previous: Option<Sample>, recovering: bool, kept: seq<Sample>, baseline: Option<Sample>, maxGap: Time)
  {
    if kept == [] then previous == baseline && !recovering
    else
      var last := |kept| - 1;
      && previous == (if Usable(kept[last]) then Some(kept[last]) else None)
      && (recovering <==> Decrease(kept, baseline, maxGap, last))
  }

  /** The two tables when `kept` samples were compared, `buckets` opened and `flawed` marked. */
  ghost predicate Tallied(
    kept: seq<Sample>, buckets: set<Time>, flawed: set<Time>, baseline: Option<Sample>, p: Period,
    totals: map<Time, Option<real>>, partial: map<Time, bool>, periodPartial: bool)
    requires p.resolution > 0
  {
    && totals.Keys == partial.Keys == buckets
    && (forall b :: b in totals ==> totals[b] == BucketTotal(kept, baseline, p, b))
    && (forall b :: b in partial ==> (partial[b] <==> b in flawed))
    && (periodPartial <==> flawed != {})
  }

  function Opened<V>(table: map<Time, V>, bucket: Time, empty: V): map<Time, V> {
    if bucket in table then table else table[bucket := empty]
  }

  /** Everything the pass has established so far, advanced one sample at a time. */
  datatype Scan = Scan(kept: seq<Sample>, buckets: set<Time>, flawed: set<Time>, last: Option<Time>)

  function Advance(scan: Scan, s: Sample, baseline: Option<Sample>, p: Period): Scan
    requires p.resolution > 0
  {
    if !Within(s, p) then scan
    else
      var bucket := BucketOf(s.at, p);
      var news := scan.kept == [] || scan.kept[|scan.kept| - 1].at < s.at;
      var kept := if news then scan.kept + [s] else scan.kept;
      var trusted := news && Counted(kept, baseline, p.maxGap, |kept| - 1);
      Scan(kept, scan.buckets + {bucket}, scan.flawed + (if trusted then {} else {bucket}), Some(bucket))
  }

  function ScanOf(samples: seq<Sample>, baseline: Option<Sample>, p: Period): Scan
    requires p.resolution > 0
  {
    if samples == [] then Scan([], {}, {}, None)
    else Advance(ScanOf(samples[..|samples| - 1], baseline, p), samples[|samples| - 1], baseline, p)
  }

  lemma {:induction false} ScanMeans(samples: seq<Sample>, baseline: Option<Sample>, p: Period)
    requires p.resolution > 0
    ensures ScanOf(samples, baseline, p)
         == Scan(Kept(samples, p), Buckets(samples, p), FlawedBuckets(samples, baseline, p), LastBucket(samples, p))
  {
    if samples != [] {
      ScanMeans(samples[..|samples| - 1], baseline, p);
    }
  }

  /** A bucket the pass has not opened has no sum and no mark. */
  ghost predicate NothingElsewhere(scan: Scan, baseline: Option<Sample>, p: Period)
    requires p.resolution > 0
  {
    && scan.flawed <= scan.buckets
    && forall b :: b !in scan.buckets ==> BucketTotal(scan.kept, baseline, p, b) == None
  }

  lemma {:induction false} UnopenedIsEmpty(samples: seq<Sample>, baseline: Option<Sample>, p: Period)
    requires p.resolution > 0
    ensures NothingElsewhere(ScanOf(samples, baseline, p), baseline, p)
  {
    if samples != [] {
      var s, earlier := samples[|samples| - 1], ScanOf(samples[..|samples| - 1], baseline, p);
      UnopenedIsEmpty(samples[..|samples| - 1], baseline, p);
      forall b | b !in ScanOf(samples, baseline, p).buckets
        ensures BucketTotal(ScanOf(samples, baseline, p).kept, baseline, p, b) == None
      {
        AppendedBucketTotal(earlier.kept, s, baseline, p, b);
      }
    }
  }

  lemma ScanAppend(samples: seq<Sample>, i: nat, baseline: Option<Sample>, p: Period)
    requires p.resolution > 0 && i < |samples|
    ensures var scan := ScanOf(samples[..i], baseline, p);
            && ScanOf(samples[..i + 1], baseline, p) == Advance(scan, samples[i], baseline, p)
            && NothingElsewhere(scan, baseline, p)
  {
    assert samples[..i + 1][..i] == samples[..i];
    UnopenedIsEmpty(samples[..i], baseline, p);
  }

  lemma AppendedBucketTotal(kept: seq<Sample>, s: Sample, baseline: Option<Sample>, p: Period, b: Time)
    requires p.resolution > 0
    ensures BucketTotal(kept + [s], baseline, p, b)
         == if BucketOf(s.at, p) == b && Counted(kept + [s], baseline, p.maxGap, |kept|)
            then Some(BucketTotal(kept, baseline, p, b).GetOr(0.0) + Delta(kept + [s], baseline, |kept|))
            else BucketTotal(kept, baseline, p, b)
  {
    assert (kept + [s])[..|kept|] == kept;
  }

  /** A sample without a trusted delta opens its bucket and marks it. */
  lemma TallyFlawed(
    kept: seq<Sample>, kept': seq<Sample>, s: Sample, buckets: set<Time>,
    flawed: set<Time>, baseline: Option<Sample>, p: Period,
    totals: map<Time, Option<real>>, partial: map<Time, bool>, periodPartial: bool)
    requires p.resolution > 0 && Tallied(kept, buckets, flawed, baseline, p, totals, partial, periodPartial)
    requires kept' == kept || (kept' == kept + [s] && !Counted(kept', baseline, p.maxGap, |kept|))
    requires BucketOf(s.at, p) !in buckets ==> BucketTotal(kept, baseline, p, BucketOf(s.at, p)) == None
    ensures var b := BucketOf(s.at, p);
            Tallied(kept', buckets + {b}, flawed + {b}, baseline, p, Opened(totals, b, None), partial[b := true], true)
  {
    var bucket, totals' := BucketOf(s.at, p), Opened(totals, BucketOf(s.at, p), None);
    forall b | b in totals'
      ensures totals'[b] == BucketTotal(kept', baseline, p, b)
    {
      AppendedBucketTotal(kept, s, baseline, p, b);
    }
  }

  /** A counted delta is added to its bucket. */
  lemma TallyCounted(
    kept: seq<Sample>, s: Sample, buckets: set<Time>, flawed: set<Time>,
    baseline: Option<Sample>, p: Period, delta: real,
    totals: map<Time, Option<real>>, partial: map<Time, bool>, periodPartial: bool)
    requires p.resolution > 0 && Tallied(kept, buckets, flawed, baseline, p, totals, partial, periodPartial)
    requires Counted(kept + [s], baseline, p.maxGap, |kept|) && delta == Delta(kept + [s], baseline, |kept|)
    requires BucketOf(s.at, p) !in buckets ==>
               BucketTotal(kept, baseline, p, BucketOf(s.at, p)) == None && BucketOf(s.at, p) !in flawed
    ensures var b := BucketOf(s.at, p);
            var open := Opened(totals, b, None);
            Tallied(kept + [s], buckets + {b}, flawed, baseline, p, open[b := Some(open[b].GetOr(0.0) + delta)],
                Opened(partial, b, false), periodPartial)
  {
    var bucket := BucketOf(s.at, p);
    var open := Opened(totals, bucket, None);
    var totals' := open[bucket := Some(open[bucket].GetOr(0.0) + delta)];
    forall b | b in totals'
      ensures totals'[b] == BucketTotal(kept + [s], baseline, p, b)
    {
      AppendedBucketTotal(kept, s, baseline, p, b);
    }
  }

  /** Enters one sample of the period in the tables: its trusted delta, or a mark. */
  method Tally(
    s: Sample, delta: Option<real>, p: Period, totals: map<Time, Option<real>>,
    partial: map<Time, bool>, periodPartial: bool,
    ghost kept: seq<Sample>, ghost kept': seq<Sample>, ghost buckets: set<Time>,
    ghost flawed: set<Time>, ghost baseline: Option<Sample>)
    returns (totals': map<Time, Option<real>>, partial': map<Time, bool>, periodPartial': bool)
    requires p.resolution > 0 && Tallied(kept, buckets, flawed, baseline, p, totals, partial, periodPartial)
    requires BucketOf(s.at, p) !in buckets ==>
               BucketTotal(kept, baseline, p, BucketOf(s.at, p)) == None && BucketOf(s.at, p) !in flawed
    requires kept' == kept + [s] || (kept' == kept && delta.None?)
    requires kept' == kept + [s] ==>
               delta == if Counted(kept', baseline, p.maxGap, |kept|)
                   then Some(Delta(kept', baseline, |kept|)) else None
    ensures var b := BucketOf(s.at, p);
            Tallied(kept', buckets + {b}, flawed + (if delta.None? then {b} else {}),
                baseline, p, totals', partial', periodPartial')
  {
    var bucket := BucketOf(s.at, p);
    totals', partial', periodPartial' := Opened(totals, bucket, None), Opened(partial, bucket, false), periodPartial;
    if delta.None? {
      TallyFlawed(kept, kept', s, buckets, flawed, baseline, p, totals, partial, periodPartial);
      partial', periodPartial' := partial'[bucket := true], true;
      assert partial' == partial[bucket := true];
    } else {
      TallyCounted(kept, s, buckets, flawed, baseline, p, delta.value, totals, partial, periodPartial);
      totals' := totals'[bucket := Some(totals'[bucket].GetOr(0.0) + delta.value)];
    }
  }

  /** The pass's local variables. */
  datatype Locals = Locals(
    totals: map<Time, Option<real>>, partial: map<Time, bool>, periodPartial: bool,
    previous: Option<Sample>, recovering: bool, lastSeen: Option<Time>, bucket: Time)

  ghost predicate Reflects(l: Locals, scan: Scan, baseline: Option<Sample>, p: Period)
    requires p.resolution > 0
  {
    && l.lastSeen == (if scan.kept == [] then None else Some(scan.kept[|scan.kept| - 1].at))
    && Carried(l.previous, l.recovering, scan.kept, baseline, p.maxGap)
    && Tallied(scan.kept, scan.buckets, scan.flawed, baseline, p, l.totals, l.partial, l.periodPartial)
    && scan.last == (if scan.kept == [] then None else Some(l.bucket))
  }

  /** One turn of the loop. */
  method Turn(l: Locals, s: Sample, p: Period, ghost scan: Scan, ghost baseline: Option<Sample>) returns (l': Locals)
    requires p.resolution > 0 && Reflects(l, scan, baseline, p) && NothingElsewhere(scan, baseline, p)
    ensures Reflects(l', Advance(scan, s, baseline, p), baseline, p)
  {
    l' := l;
    if !(p.from <= s.at < p.to) { return; }
    var delta: Option<real> := None;
    ghost var kept := scan.kept;
    if l.lastSeen.None? || l.lastSeen.value < s.at {
      kept := scan.kept + [s];
      var previous, recovering;
      delta, previous, recovering := Compare(s, l.previous, l.recovering, p.maxGap, scan.kept, baseline);
      l' := l'.(previous := previous, recovering := recovering, lastSeen := Some(s.at));
    }
    var totals, partial, periodPartial :=
      Tally(s, delta, p, l.totals, l.partial, l.periodPartial, scan.kept, kept, scan.buckets, scan.flawed, baseline);
    l' := l'.(totals := totals, partial := partial, periodPartial := periodPartial, bucket := BucketOf(s.at, p));
  }

  method Pass(samples: seq<Sample>, p: Period, baseline: Option<Sample>) returns (l: Locals)
    requires p.resolution > 0
    ensures Reflects(l, ScanOf(samples, baseline, p), baseline, p)
  {
    l := Locals(map[], map[], false, baseline, false, None, p.from);
    for i := 0 to |samples|
      invariant Reflects(l, ScanOf(samples[..i], baseline, p), baseline, p)
    {
      ScanAppend(samples, i, baseline, p);
      l := Turn(l, samples[i], p, ScanOf(samples[..i], baseline, p), baseline);
    }
    assert samples[..|samples|] == samples;
  }

  method ConsumptionBuckets(samples: seq<Sample>, p: Period, baseline: Option<Sample>)
    returns (totals: map<Time, Option<real>>, partial: map<Time, bool>, periodPartial: bool)
    requires p.resolution > 0
    ensures totals.Keys == partial.Keys == Buckets(samples, p)
    ensures forall b :: b in totals <==> OnGrid(b, p) && HasSampleIn(samples, p, b)
    ensures forall b :: b in totals ==> totals[b] == BucketTotal(Kept(samples, p), baseline, p, b)
    ensures forall b :: b in partial ==>
              var late := LateEnd(samples, p) && LastBucket(samples, p) == Some(b);
              partial[b] == (b in FlawedBuckets(samples, baseline, p) || late)
    ensures periodPartial <==> FlawedBuckets(samples, baseline, p) != {} || LateEnd(samples, p)
  {
    var l := Pass(samples, p, baseline);
    ScanMeans(samples, baseline, p);
    totals, partial, periodPartial := l.totals, l.partial, l.periodPartial;
    forall b
      ensures b in totals <==> OnGrid(b, p) && HasSampleIn(samples, p, b)
    {
      BucketsAreTheGrid(samples, p, b);
    }
    if l.lastSeen.None? || p.to - l.lastSeen.value > p.maxGap {
      periodPartial := true;
      if l.lastSeen.Some? {
        LastBucketIsOpen(samples, p);
        partial := partial[l.bucket := true];
      }
    }
  }

  function LastBucket(samples: seq<Sample>, p: Period): Option<Time>
    requires p.resolution > 0
  {
    var last := LastWithin(samples, p);
    if last.None? then None else Some(BucketOf(last.value.at, p))
  }

  lemma {:induction false} LastBucketIsOpen(samples: seq<Sample>, p: Period)
    requires p.resolution > 0
    ensures LastBucket(samples, p).Some? ==> LastBucket(samples, p).value in Buckets(samples, p)
  {
    if samples != [] {
      LastBucketIsOpen(samples[..|samples| - 1], p);
    }
  }
}
