/**
 Two accounts of the same day: the detailed history's sum of trusted deltas and
 the daily summary's end minus start.
 */
module EnergyAgreement {
  import opened Basics
  import C = Consumption
  import D = DailySummary

  function SampleOf(m: D.Measurement): C.Sample { C.Sample(m.at, m.energy) }

  function SamplesOf(rs: seq<D.Measurement>): seq<C.Sample> {
    seq(|rs|, i requires 0 <= i < |rs| => SampleOf(rs[i]))
  }

  function ValuesOf(samples: seq<C.Sample>): seq<C.Value> {
    seq(|samples|, i requires 0 <= i < |samples| => samples[i].value)
  }

  /** The usable counter values, in order. */
  function UsableValues(samples: seq<C.Sample>): seq<real> {
    if samples == [] then []
    else
      var last := samples[|samples| - 1];
      var earlier := UsableValues(samples[..|samples| - 1]);
      if C.Usable(last) then earlier + [last.value.kwh] else earlier
  }

  ghost predicate NeverDecreases(samples: seq<C.Sample>) {
    forall i, j :: 0 <= i < j < |samples| && C.Usable(samples[i]) && C.Usable(samples[j]) ==>
      samples[i].value.kwh <= samples[j].value.kwh
  }

  function Net(values: seq<real>): real { if values == [] then 0.0 else values[|values| - 1] - values[0] }

  /** What the detailed history shows for a period holding the given readings, with nothing before it. */
  function DetailedTotal(rs: seq<D.Measurement>, p: C.Period): real {
    C.Total(C.Kept(SamplesOf(rs), p), None, p.maxGap)
  }

  /** What the daily summary of the same readings shows. */
  function DailyConsumption(rs: seq<D.Measurement>): Option<real> { D.DailyEnergy(rs).consumption }

  // ---- the detailed side -----------------------------------------------------

  lemma {:induction false} AllAreKept(samples: seq<C.Sample>, p: C.Period)
    requires forall i :: 0 <= i < |samples| ==> C.Within(samples[i], p)
    requires forall i, j :: 0 <= i < j < |samples| ==> samples[i].at < samples[j].at
    ensures C.Kept(samples, p) == samples
  {
    if samples != [] {
      var n := |samples| - 1;
      AllAreKept(samples[..n], p);
      assert samples == samples[..n] + [samples[n]];
    }
  }

  lemma {:induction false} UsableValuesAreOf(samples: seq<C.Sample>)
    ensures forall v :: v in UsableValues(samples) ==>
              exists i :: 0 <= i < |samples| && C.Usable(samples[i]) && samples[i].value.kwh == v
  {
    if samples != [] {
      var n := |samples| - 1;
      UsableValuesAreOf(samples[..n]);
      forall v | v in UsableValues(samples)
        ensures exists i :: 0 <= i < |samples| && C.Usable(samples[i]) && samples[i].value.kwh == v
      {
        if v in UsableValues(samples[..n]) {
          var i :| 0 <= i < n && C.Usable(samples[..n][i]) && samples[..n][i].value.kwh == v;
          assert samples[i].value.kwh == v && C.Usable(samples[i]);
        } else {
          assert samples[n].value.kwh == v && C.Usable(samples[n]);
        }
      }
    }
  }

  lemma LastUsableIsHighest(earlier: seq<C.Sample>, last: C.Sample, v: real)
    requires NeverDecreases(earlier + [last]) && C.Usable(last) && v in UsableValues(earlier)
    ensures v <= last.value.kwh
  {
    UsableValuesAreOf(earlier);
    var i :| 0 <= i < |earlier| && C.Usable(earlier[i]) && earlier[i].value.kwh == v;
    assert (earlier + [last])[i] == earlier[i] && (earlier + [last])[|earlier|] == last;
  }

  /** A counted delta starts at the latest usable value. */
  lemma CountedFromLastUsable(samples: seq<C.Sample>, maxGap: Time)
    requires samples != [] && C.Counted(samples, None, maxGap, |samples| - 1)
    ensures var n, earlier := |samples| - 1, UsableValues(samples[..|samples| - 1]);
            earlier != [] && C.Usable(samples[n])
            && C.Delta(samples, None, n) == samples[n].value.kwh - earlier[|earlier| - 1]
  {
    var n := |samples| - 1;
    assert n > 0 && samples[..n][n - 1] == samples[n - 1];
  }

  lemma {:induction false} TotalIsAtMostNet(samples: seq<C.Sample>, maxGap: Time)
    requires NeverDecreases(samples)
    ensures C.Total(samples, None, maxGap) <= Net(UsableValues(samples))
  {
    if samples != [] {
      var n := |samples| - 1;
      var earlier := UsableValues(samples[..n]);
      TotalIsAtMostNet(samples[..n], maxGap);
      if C.Counted(samples, None, maxGap, n) {
        CountedFromLastUsable(samples, maxGap);
      } else if C.Usable(samples[n]) && earlier != [] {
        assert samples == samples[..n] + [samples[n]];
        LastUsableIsHighest(samples[..n], samples[n], earlier[|earlier| - 1]);
      }
    }
  }

  // ---- the daily side --------------------------------------------------------

  /** Readings the monotone scan accepts. */
  function Accepted(values: seq<real>): int { |values| - D.Drops(values) }

  lemma {:induction false} FirstIsAccepted(values: seq<real>)
    requires values != []
    ensures Accepted(values) >= 1
  {
    if |values| > 1 {
      FirstIsAccepted(values[..|values| - 1]);
    }
  }

  /** The scan starts no higher, ends no lower, and accepts at least as many readings. */
  ghost predicate Covers(finite: seq<real>, usable: seq<real>) {
    && (usable != [] ==> finite != [] && finite[0] <= usable[0] && usable[|usable| - 1] <= D.MaxOf(finite))
    && (|usable| >= 2 ==> Accepted(finite) >= 2)
    && forall v :: v in finite ==> v < 0.0 || v in usable
  }

  lemma MaxOfMore(values: seq<real>, v: real)
    requires values != []
    ensures D.MaxOf(values + [v]) == if v < D.MaxOf(values) then D.MaxOf(values) else v
    ensures Accepted(values + [v]) == Accepted(values) + if v < D.MaxOf(values) then 0 else 1
  {
    assert (values + [v])[..|values|] == values;
  }

  lemma NegativeIsCovered(finite: seq<real>, usable: seq<real>, v: real)
    requires Covers(finite, usable) && v < 0.0
    ensures Covers(finite + [v], usable)
  {
    if finite != [] {
      MaxOfMore(finite, v);
    }
  }

  lemma HigherIsCovered(finite: seq<real>, usable: seq<real>, v: real)
    requires Covers(finite, usable) && v >= 0.0 && forall u :: u in usable ==> u <= v
    ensures Covers(finite + [v], usable + [v])
  {
    if finite != [] {
      MaxOfMore(finite, v);
      FirstIsAccepted(finite);
      assert D.MaxOf(finite) in finite;
      assert finite[0] in finite;
    }
  }

  lemma {:induction false} FiniteCoversUsable(samples: seq<C.Sample>)
    requires NeverDecreases(samples)
    ensures Covers(D.FiniteValues(ValuesOf(samples)), UsableValues(samples))
  {
    if samples != [] {
      var n := |samples| - 1;
      var last := samples[n];
      FiniteCoversUsable(samples[..n]);
      assert ValuesOf(samples)[..n] == ValuesOf(samples[..n]);
      if C.Usable(last) {
        var usable := UsableValues(samples[..n]);
        forall u | u in usable
          ensures u <= last.value.kwh
        {
          assert samples == samples[..n] + [last];
          LastUsableIsHighest(samples[..n], last, u);
        }
        HigherIsCovered(D.FiniteValues(ValuesOf(samples[..n])), usable, last.value.kwh);
      } else if last.value.Finite? {
        NegativeIsCovered(D.FiniteValues(ValuesOf(samples[..n])), UsableValues(samples[..n]), last.value.kwh);
      }
    }
  }

  // ---- agreement -------------------------------------------------------------

  lemma SamplesAreKept(rs: seq<D.Measurement>, p: C.Period)
    requires D.Ordered(rs) && forall r :: r in rs ==> p.from <= r.at < p.to
    ensures C.Kept(SamplesOf(rs), p) == SamplesOf(rs)
  {
    D.OrderedPairs(rs);
    assert forall i :: 0 <= i < |rs| ==> rs[i] in rs;
    AllAreKept(SamplesOf(rs), p);
  }

  lemma ColumnIsOfSamples(rs: seq<D.Measurement>)
    ensures D.EnergyColumn(rs) == D.FiniteValues(ValuesOf(SamplesOf(rs)))
  {
    assert ValuesOf(SamplesOf(rs)) == seq(|rs|, i requires 0 <= i < |rs| => rs[i].energy);
  }

  /** On a day whose valid readings never decrease, the detailed total never exceeds the daily one. */
  lemma DetailedIsAtMostDaily(rs: seq<D.Measurement>, p: C.Period)
    requires rs != [] && D.Ordered(rs) && forall r :: r in rs ==> p.from <= r.at < p.to
    requires NeverDecreases(SamplesOf(rs))
    ensures DetailedTotal(rs, p) <= DailyConsumption(rs).GetOr(0.0)
  {
    var samples := SamplesOf(rs);
    SamplesAreKept(rs, p);
    ColumnIsOfSamples(rs);
    TotalIsAtMostNet(samples, p.maxGap);
    FiniteCoversUsable(samples);
    NetIsAtMostScan(D.EnergyColumn(rs), UsableValues(samples));
  }

  lemma NetIsAtMostScan(finite: seq<real>, usable: seq<real>)
    requires Covers(finite, usable)
    ensures Net(usable) <= D.EnergyOf(finite).consumption.GetOr(0.0)
  {
    if finite != [] {
      assert finite[0] in finite;
    }
  }

  ghost predicate Unbroken(samples: seq<C.Sample>, maxGap: Time) {
    && (forall i :: 0 <= i < |samples| ==> C.Usable(samples[i]))
    && forall i, j :: 0 <= i && i + 1 == j < |samples| ==> samples[j].at - samples[i].at <= maxGap
  }

  ghost predicate Increasing(samples: seq<C.Sample>) {
    forall i, j :: 0 <= i < j < |samples| ==> samples[i].at < samples[j].at
  }

  lemma UnbrokenIsCounted(samples: seq<C.Sample>, maxGap: Time, n: nat)
    requires NeverDecreases(samples) && Unbroken(samples, maxGap) && Increasing(samples) && 0 < n < |samples|
    ensures C.Counted(samples, None, maxGap, n)
    ensures C.Delta(samples, None, n) == samples[n].value.kwh - samples[n - 1].value.kwh
  {
    assert C.Usable(samples[n]) && C.Usable(samples[n - 1]);
    if n > 1 {
      assert C.Usable(samples[n - 2]);
    }
  }

  lemma {:induction false} UnbrokenTelescopes(samples: seq<C.Sample>, maxGap: Time)
    requires NeverDecreases(samples) && Unbroken(samples, maxGap) && Increasing(samples) && samples != []
    ensures C.Total(samples, None, maxGap) == samples[|samples| - 1].value.kwh - samples[0].value.kwh
  {
    var n := |samples| - 1;
    if n > 0 {
      UnbrokenTelescopes(samples[..n], maxGap);
      UnbrokenIsCounted(samples, maxGap, n);
    } else {
      assert samples[..0] == [];
      assert !C.Counted(samples, None, maxGap, 0);
    }
  }

  lemma FiniteOfMore(earlier: seq<C.Sample>, last: C.Sample)
    requires last.value.Finite?
    ensures D.FiniteValues(ValuesOf(earlier + [last])) == D.FiniteValues(ValuesOf(earlier)) + [last.value.kwh]
  {
    assert ValuesOf(earlier + [last])[..|earlier|] == ValuesOf(earlier);
  }

  /** The scan of usable values that never decrease accepts all of them and ends at the last. */
  lemma {:induction false} UnbrokenScan(samples: seq<C.Sample>)
    requires NeverDecreases(samples) && samples != [] && forall i :: 0 <= i < |samples| ==> C.Usable(samples[i])
    ensures var finite := D.FiniteValues(ValuesOf(samples));
            && finite != [] && Accepted(finite) == |samples|
            && C.Finite(finite[0]) == samples[0].value && C.Finite(D.MaxOf(finite)) == samples[|samples| - 1].value
  {
    var n := |samples| - 1;
    var earlier, last := samples[..n], samples[n];
    assert samples == earlier + [last];
    FiniteOfMore(earlier, last);
    if n > 0 {
      UnbrokenScan(earlier);
      assert earlier[n - 1] == samples[n - 1] && earlier[0] == samples[0];
      MaxOfMore(D.FiniteValues(ValuesOf(earlier)), last.value.kwh);
    } else {
      assert D.FiniteValues(ValuesOf(earlier)) == [];
    }
  }

  /** With two readings or more, none missing and no gap beyond the limit, the two are equal. */
  lemma UnbrokenDayAgrees(rs: seq<D.Measurement>, p: C.Period)
    requires |rs| >= 2 && D.Ordered(rs) && forall r :: r in rs ==> p.from <= r.at < p.to
    requires NeverDecreases(SamplesOf(rs)) && Unbroken(SamplesOf(rs), p.maxGap)
    ensures DailyConsumption(rs) == Some(DetailedTotal(rs, p))
  {
    var samples := SamplesOf(rs);
    D.OrderedPairs(rs);
    SamplesAreKept(rs, p);
    ColumnIsOfSamples(rs);
    UnbrokenSamplesAgree(samples, p.maxGap);
  }

  lemma UnbrokenSamplesAgree(samples: seq<C.Sample>, maxGap: Time)
    requires |samples| >= 2 && NeverDecreases(samples) && Unbroken(samples, maxGap)
    requires Increasing(samples)
    ensures D.EnergyOf(D.FiniteValues(ValuesOf(samples))).consumption == Some(C.Total(samples, None, maxGap))
  {
    UnbrokenTelescopes(samples, maxGap);
    UnbrokenScan(samples);
    ScanOfAccepted(D.FiniteValues(ValuesOf(samples)), C.Total(samples, None, maxGap));
  }

  lemma ScanOfAccepted(finite: seq<real>, net: real)
    requires finite != [] && Accepted(finite) >= 2 && net == D.MaxOf(finite) - finite[0]
    ensures D.EnergyOf(finite).consumption == Some(net)
  {
  }
}
