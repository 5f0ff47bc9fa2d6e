/** What a day's summary says about the day's readings, in terms of those readings alone. */
module SummaryPlain {
  import opened Basics
  import opened DailySummary
  import C = Consumption

  const ENERGY := (r: Measurement) => r.energy
  const POWER := (r: Measurement) => r.power
  const VOLTAGE := (r: Measurement) => r.voltage
  const CURRENT := (r: Measurement) => r.current
  const FREQUENCY := (r: Measurement) => r.frequency
  const POWER_FACTOR := (r: Measurement) => r.powerFactor

  // ---- numbers among readings ------------------------------------------------

  /** How many readings have a number in a column, and their sum. */
  function CountOf(rs: seq<Measurement>, column: Measurement -> C.Value): nat {
    if rs == [] then 0
    else CountOf(rs[..|rs| - 1], column) + if column(rs[|rs| - 1]).Finite? then 1 else 0
  }

  function TotalOf(rs: seq<Measurement>, column: Measurement -> C.Value): real {
    if rs == [] then 0.0
    else
      var v := column(rs[|rs| - 1]);
      TotalOf(rs[..|rs| - 1], column) + if v.Finite? then v.kwh else 0.0
  }

  ghost predicate Has(rs: seq<Measurement>, column: Measurement -> C.Value, x: real) {
    exists r :: r in rs && column(r) == C.Finite(x)
  }

  ghost predicate HasAny(rs: seq<Measurement>, column: Measurement -> C.Value) {
    exists r :: r in rs && column(r).Finite?
  }

  /** x is the least number of the column, and some reading has it. */
  ghost predicate IsLeast(rs: seq<Measurement>, column: Measurement -> C.Value, x: real) {
    Has(rs, column, x) && forall r :: r in rs && column(r).Finite? ==> x <= column(r).kwh
  }

  ghost predicate IsGreatest(rs: seq<Measurement>, column: Measurement -> C.Value, x: real) {
    Has(rs, column, x) && forall r :: r in rs && column(r).Finite? ==> column(r).kwh <= x
  }

  predicate IsMean(mean: real, total: real, count: nat) { mean * count as real == total }

  /** Statistics exist when the column has a number; they are its bounds and its mean. */
  ghost predicate Describes(stats: Option<Stats>, rs: seq<Measurement>, column: Measurement -> C.Value) {
    && (stats.Some? <==> HasAny(rs, column))
    && (stats.Some? ==>
          && IsLeast(rs, column, stats.value.min) && IsGreatest(rs, column, stats.value.max)
          && IsMean(stats.value.avg, TotalOf(rs, column), CountOf(rs, column)))
  }

  /** Reading i is the first with an energy value. */
  predicate IsFirstEnergy(rs: seq<Measurement>, i: nat) {
    i < |rs| && rs[i].energy.Finite? && forall j :: 0 <= j < i ==> !rs[j].energy.Finite?
  }

  /** Some energy value after reading i is no lower than its. */
  predicate ReachedAgain(rs: seq<Measurement>, i: nat) {
    i < |rs| && rs[i].energy.Finite? && exists j ::
        i < j < |rs| && rs[j].energy.Finite? && rs[i].energy.kwh <= rs[j].energy.kwh
  }

  /**
   Start is the first value and end the greatest, drops or not; their difference
   is the consumption, known once a later value is no lower than the first.
   */
  ghost predicate DescribesEnergy(e: Energy, rs: seq<Measurement>) {
    var column := ENERGY;
    && (e.start.Some? <==> HasAny(rs, column)) && (e.end.Some? <==> HasAny(rs, column))
    && (e.end.Some? ==> IsGreatest(rs, column, e.end.value))
    && (forall i: nat :: IsFirstEnergy(rs, i) ==> e.start == Some(rs[i].energy.kwh))
    && (e.consumption.Some? <==> exists i: nat :: IsFirstEnergy(rs, i) && ReachedAgain(rs, i))
    && (e.consumption.Some? ==> e.start.Some? && e.end.Some? && e.consumption.value == e.end.value - e.start.value)
  }

  /** What a summary must say of the readings of its day. */
  ghost predicate Means(s: Summary, rs: seq<Measurement>) {
    && s.count == |rs|
    && (exists r :: r in rs && r.at == s.first) && (forall r :: r in rs ==> s.first <= r.at)
    && (exists r :: r in rs && r.at == s.last) && (forall r :: r in rs ==> r.at <= s.last)
    && DescribesEnergy(s.energy, rs)
    && Describes(s.power, rs, POWER) && Describes(s.voltage, rs, VOLTAGE)
    && Describes(s.current, rs, CURRENT) && Describes(s.frequency, rs, FREQUENCY)
    && Describes(s.powerFactor, rs, POWER_FACTOR)
  }

  // ---- a column as a list of numbers -----------------------------------------

  function ColumnBy(rs: seq<Measurement>, column: Measurement -> C.Value): seq<C.Value> {
    seq(|rs|, i requires 0 <= i < |rs| => column(rs[i]))
  }

  lemma {:induction false} NumbersOf(rs: seq<Measurement>, column: Measurement -> C.Value)
    ensures var numbers := FiniteValues(ColumnBy(rs, column));
            && (forall x :: x in numbers <==> Has(rs, column, x))
            && |numbers| == CountOf(rs, column) && SumOf(numbers) == TotalOf(rs, column)
  {
    if rs != [] {
      var n := |rs| - 1;
      var earlier, last := rs[..n], rs[n];
      NumbersOf(earlier, column);
      assert ColumnBy(rs, column)[..n] == ColumnBy(earlier, column);
      var before := FiniteValues(ColumnBy(earlier, column));
      forall x
        ensures Has(rs, column, x) <==> Has(earlier, column, x) || column(last) == C.Finite(x)
      {
        assert forall r :: r in rs <==> r in earlier || r == last;
      }
      if column(last).Finite? {
        assert (before + [column(last).kwh])[..|before|] == before;
      }
    }
  }

  lemma NoNumbers(rs: seq<Measurement>, column: Measurement -> C.Value)
    requires FiniteValues(ColumnBy(rs, column)) == []
    ensures !HasAny(rs, column)
  {
    NumbersOf(rs, column);
    forall r | r in rs
      ensures !column(r).Finite?
    {
      NumberIsListed(rs, column, r);
    }
  }

  lemma NumberIsListed(rs: seq<Measurement>, column: Measurement -> C.Value, r: Measurement)
    requires r in rs
    ensures column(r).Finite? ==> column(r).kwh in FiniteValues(ColumnBy(rs, column))
  {
    NumbersOf(rs, column);
    assert column(r).Finite? ==> Has(rs, column, column(r).kwh);
  }

  /** A value that bounds the numbers of a column and is one of them. */
  lemma BoundsOf(rs: seq<Measurement>, column: Measurement -> C.Value, numbers: seq<real>, low: real, high: real)
    requires numbers == FiniteValues(ColumnBy(rs, column))
    requires low in numbers && high in numbers && forall x :: x in numbers ==> low <= x <= high
    ensures IsLeast(rs, column, low) && IsGreatest(rs, column, high) && HasAny(rs, column)
  {
    NumbersOf(rs, column);
    forall r | r in rs && column(r).Finite?
      ensures low <= column(r).kwh <= high
    {
      NumberIsListed(rs, column, r);
    }
  }

  lemma StatsDescribe(rs: seq<Measurement>, column: Measurement -> C.Value)
    ensures Describes(MinAvgMax(FiniteValues(ColumnBy(rs, column))), rs, column)
  {
    var numbers := FiniteValues(ColumnBy(rs, column));
    if numbers == [] {
      NoNumbers(rs, column);
    } else {
      SomeStatsDescribe(rs, column, numbers, MinAvgMax(numbers));
    }
  }

  lemma SomeStatsDescribe(
    rs: seq<Measurement>, column: Measurement -> C.Value, numbers: seq<real>, stats: Option<Stats>)
    requires numbers == FiniteValues(ColumnBy(rs, column)) && numbers != [] && stats == MinAvgMax(numbers)
    ensures Describes(stats, rs, column)
  {
    NumbersOf(rs, column);
    var count, total := CountOf(rs, column), TotalOf(rs, column);
    MeanIs(numbers, total, count);
    BoundsOf(rs, column, numbers, stats.value.min, stats.value.max);
  }

  lemma DivideBack(sum: real, n: real)
    requires n > 0.0
    ensures sum / n * n == sum
  {
  }

  lemma MeanIs(numbers: seq<real>, sum: real, count: nat)
    requires numbers != [] && sum == SumOf(numbers) && count == |numbers|
    ensures MinAvgMax(numbers).Some?
    ensures IsMean(MinAvgMax(numbers).value.avg, sum, count)
    ensures var s := MinAvgMax(numbers).value;
            s.min in numbers && s.max in numbers && forall x :: x in numbers ==> s.min <= x <= s.max
  {
    DivideBack(sum, count as real);
  }

  // ---- the energy scan ---------------------------------------------------------

  predicate ReachedAgainIn(numbers: seq<real>) { exists j :: 0 < j < |numbers| && numbers[0] <= numbers[j] }

  /** A second value is accepted exactly when some later value is no lower than the first. */
  lemma {:induction false} AcceptedIff(numbers: seq<real>)
    requires numbers != []
    ensures |numbers| - Drops(numbers) >= 1
    ensures |numbers| - Drops(numbers) >= 2 <==> ReachedAgainIn(numbers)
    ensures !ReachedAgainIn(numbers) ==> MaxOf(numbers) == numbers[0]
  {
    var n := |numbers| - 1;
    if n > 0 {
      var earlier := numbers[..n];
      AcceptedIff(earlier);
      assert earlier[0] in earlier && earlier[0] == numbers[0];
      if ReachedAgainIn(earlier) {
        var j :| 0 < j < n && earlier[0] <= earlier[j];
        assert numbers[0] <= numbers[j];
      } else if numbers[0] <= numbers[n] {
        assert ReachedAgainIn(numbers);
      } else {
        assert forall j :: 0 < j < |numbers| ==> j == n || numbers[j] == earlier[j];
      }
    }
  }

  /** The first number is that of the first reading that has one; later ones reach it in both or in neither. */
  lemma {:induction false} FirstNumber(rs: seq<Measurement>, i: nat)
    requires IsFirstEnergy(rs, i)
    ensures var numbers := FiniteValues(ColumnBy(rs, ENERGY));
            && numbers != [] && numbers[0] == rs[i].energy.kwh
            && (ReachedAgainIn(numbers) <==> ReachedAgain(rs, i))
  {
    var n := |rs| - 1;
    var column := ENERGY;
    assert ColumnBy(rs, column)[..n] == ColumnBy(rs[..n], column);
    var before := FiniteValues(ColumnBy(rs[..n], column));
    if i < n {
      FirstNumber(rs[..n], i);
      LaterNumber(before, rs, i);
    } else {
      NoneBefore(rs[..n], column);
    }
  }

  lemma {:induction false} NoneBefore(rs: seq<Measurement>, column: Measurement -> C.Value)
    requires forall j :: 0 <= j < |rs| ==> !column(rs[j]).Finite?
    ensures FiniteValues(ColumnBy(rs, column)) == []
  {
    if rs != [] {
      NoneBefore(rs[..|rs| - 1], column);
      assert ColumnBy(rs, column)[..|rs| - 1] == ColumnBy(rs[..|rs| - 1], column);
    }
  }

  lemma LaterNumber(before: seq<real>, rs: seq<Measurement>, i: nat)
    requires i < |rs| - 1 && rs[i].energy.Finite? && before != [] && before[0] == rs[i].energy.kwh
    requires ReachedAgainIn(before) <==> ReachedAgain(rs[..|rs| - 1], i)
    ensures var last := rs[|rs| - 1].energy;
            ReachedAgainIn(if last.Finite? then before + [last.kwh] else before) <==> ReachedAgain(rs, i)
  {
    var n := |rs| - 1;
    var last := rs[n].energy;
    if ReachedAgain(rs[..n], i) {
      var j :| i < j < n && rs[..n][j].energy.Finite? && rs[i].energy.kwh <= rs[..n][j].energy.kwh;
      assert rs[j] == rs[..n][j];
      var k :| 0 < k < |before| && before[0] <= before[k];
      if last.Finite? { assert (before + [last.kwh])[0] <= (before + [last.kwh])[k]; }
    } else if last.Finite? && rs[i].energy.kwh <= last.kwh {
      assert (before + [last.kwh])[0] <= (before + [last.kwh])[|before|];
    } else {
      forall j | i < j < |rs| && rs[j].energy.Finite?
        ensures rs[j].energy.kwh < rs[i].energy.kwh
      {
        if j < n { assert rs[..n][j] == rs[j]; }
      }
      if last.Finite? {
        forall k | 0 < k < |before + [last.kwh]|
          ensures (before + [last.kwh])[k] < before[0]
        {
        }
      }
    }
  }

  lemma {:induction false} FirstEnergyExists(rs: seq<Measurement>) returns (i: nat)
    requires exists j :: 0 <= j < |rs| && rs[j].energy.Finite?
    ensures IsFirstEnergy(rs, i)
  {
    var n := |rs| - 1;
    if j :| 0 <= j < n && rs[j].energy.Finite? {
      assert rs[..n][j].energy.Finite?;
      i := FirstEnergyExists(rs[..n]);
    } else {
      i := n;
    }
  }

  lemma FirstIsUnique(rs: seq<Measurement>, i: nat, j: nat)
    requires IsFirstEnergy(rs, i) && IsFirstEnergy(rs, j)
    ensures i == j
  {
  }

  lemma EnergyDescribes(rs: seq<Measurement>)
    ensures DescribesEnergy(EnergyOf(FiniteValues(ColumnBy(rs, ENERGY))), rs)
  {
    var numbers := FiniteValues(ColumnBy(rs, ENERGY));
    if numbers == [] {
      NoNumbers(rs, ENERGY);
      forall i: nat
        ensures !IsFirstEnergy(rs, i)
      {
        assert i < |rs| ==> rs[i] in rs && !ENERGY(rs[i]).Finite?;
      }
    } else {
      SomeEnergyDescribes(rs, numbers);
    }
  }

  lemma SomeEnergyDescribes(rs: seq<Measurement>, numbers: seq<real>)
    requires numbers == FiniteValues(ColumnBy(rs, ENERGY)) && numbers != []
    ensures DescribesEnergy(EnergyOf(numbers), rs)
  {
    NumbersOf(rs, ENERGY);
    BoundsOf(rs, ENERGY, numbers, MinOf(numbers), MaxOf(numbers));
    assert Has(rs, ENERGY, numbers[0]);
    var r :| r in rs && ENERGY(r) == C.Finite(numbers[0]);
    var j :| 0 <= j < |rs| && rs[j] == r;
    assert rs[j].energy.Finite?;
    var i := FirstEnergyExists(rs);
    FirstNumber(rs, i);
    AcceptedIff(numbers);
    forall k: nat | IsFirstEnergy(rs, k)
      ensures k == i
    {
      FirstIsUnique(rs, i, k);
    }
  }

  // ---- a day -------------------------------------------------------------------

  lemma {:induction false} SummaryMeans(rs: seq<Measurement>)
    requires Ordered(rs) && rs != []
    ensures Means(BuildSummary(rs), rs)
  {
    FirstIsLeast(rs);
    assert rs[0] in rs && rs[|rs| - 1] in rs;
    EnergyDescribes(rs);
    StatsDescribe(rs, POWER);
    StatsDescribe(rs, VOLTAGE);
    StatsDescribe(rs, CURRENT);
    StatsDescribe(rs, FREQUENCY);
    StatsDescribe(rs, POWER_FACTOR);
    EnergyColumnIs(rs);
    ColumnIs(rs, Power, POWER);
    ColumnIs(rs, Voltage, VOLTAGE);
    ColumnIs(rs, Current, CURRENT);
    ColumnIs(rs, Frequency, FREQUENCY);
    ColumnIs(rs, PowerFactor, POWER_FACTOR);
  }

  lemma ColumnIs(rs: seq<Measurement>, metric: Metric, column: Measurement -> C.Value)
    requires forall r :: column(r) == r.Get(metric)
    ensures Column(rs, metric) == FiniteValues(ColumnBy(rs, column))
  {
    assert ColumnBy(rs, column) == seq(|rs|, i requires 0 <= i < |rs| => rs[i].Get(metric));
  }

  lemma EnergyColumnIs(rs: seq<Measurement>)
    ensures EnergyColumn(rs) == FiniteValues(ColumnBy(rs, ENERGY))
  {
    assert ColumnBy(rs, ENERGY) == seq(|rs|, i requires 0 <= i < |rs| => rs[i].energy);
  }

  lemma {:induction false} FirstIsLeast(rs: seq<Measurement>)
    requires Ordered(rs) && rs != []
    ensures forall r :: r in rs ==> rs[0].at <= r.at <= rs[|rs| - 1].at
  {
    var n := |rs| - 1;
    if n > 0 {
      FirstIsLeast(rs[..n]);
      assert rs[0] in rs[..n];
      assert forall r :: r in rs <==> r in rs[..n] || r == rs[n];
    }
  }
}
