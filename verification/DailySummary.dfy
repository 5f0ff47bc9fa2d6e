/**
 The readings of one channel, its calendar days, and the aggregate built from
 one day's readings.
 */
module DailySummary {
  import opened Basics
  import C = Consumption

  // ---- calendar ------------------------------------------------------------

  const HOUR: Time := 60 * MINUTE

  /** Local days: where each begins, and which one an instant belongs to. */
  datatype RawCalendar = RawCalendar(dayStart: int -> Time, dayOf: Time -> int) {
    /** Days follow one another without gap; clock changes leave each at least 22 hours. */
    ghost predicate Valid() {
      && (forall d :: dayStart(d) + 22 * HOUR <= dayStart(d + 1))
      && (forall t :: dayStart(dayOf(t)) <= t < dayStart(dayOf(t) + 1))
    }
  }

  ghost function Utc(): (c: RawCalendar)
    ensures c.Valid()
  {
    var c := RawCalendar(d => d * 86_400_000_000, t => t / 86_400_000_000);
    assert forall d :: c.dayStart(d) == d * 86_400_000_000;
    assert forall t :: c.dayOf(t) == t / 86_400_000_000;
    c
  }

  type Calendar = c: RawCalendar | c.Valid() ghost witness Utc()

  lemma {:induction false} DaysAreLong(cal: Calendar, a: int, b: int)
    requires a <= b
    ensures cal.dayStart(a) + (b - a) * (22 * HOUR) <= cal.dayStart(b)
    decreases b - a
  {
    if a < b {
      DaysAreLong(cal, a, b - 1);
      assert cal.dayStart(b - 1) + 22 * HOUR <= cal.dayStart(b - 1 + 1);
    }
  }

  /** The bounds of a day are exactly the instants dated that day. */
  lemma DayIsItsBounds(cal: Calendar, t: Time, d: int)
    ensures cal.dayOf(t) == d <==> cal.dayStart(d) <= t < cal.dayStart(d + 1)
  {
    var e := cal.dayOf(t);
    assert cal.dayStart(e) <= t < cal.dayStart(e + 1);
    if e < d {
      DaysAreLong(cal, e + 1, d);
    } else if d < e {
      DaysAreLong(cal, d + 1, e);
    }
  }

  lemma LaterIsNoEarlierDay(cal: Calendar, t: Time, u: Time)
    requires t <= u
    ensures cal.dayOf(t) <= cal.dayOf(u)
  {
    var d, e := cal.dayOf(t), cal.dayOf(u);
    assert cal.dayStart(d) <= t && u < cal.dayStart(e + 1);
    if e < d {
      DaysAreLong(cal, e + 1, d);
    }
  }

  // ---- readings ------------------------------------------------------------

  datatype Metric = Power | Voltage | Current | Frequency | PowerFactor

  datatype Measurement = Measurement(
    at: Time, energy: C.Value, power: C.Value, voltage: C.Value, current: C.Value,
    frequency: C.Value, powerFactor: C.Value)
  {
    function Get(metric: Metric): C.Value {
      match metric
      case Power => power
      case Voltage => voltage
      case Current => current
      case Frequency => frequency
      case PowerFactor => powerFactor
    }
  }

  ghost predicate AllBefore(rs: seq<Measurement>, t: Time) { forall r :: r in rs ==> r.at < t }

  /** (channel, measured_at) is unique and reads are ordered by it: strictly increasing dates. */
  ghost predicate Ordered(rs: seq<Measurement>) {
    rs == [] || (Ordered(rs[..|rs| - 1]) && AllBefore(rs[..|rs| - 1], rs[|rs| - 1].at))
  }

  predicate Stored(rs: seq<Measurement>, at: Time) { exists r :: r in rs && r.at == at }

  /** INSERT ... ON CONFLICT DO NOTHING. */
  function Insert(rs: seq<Measurement>, m: Measurement): seq<Measurement> {
    if rs == [] || rs[|rs| - 1].at < m.at then rs + [m]
    else if rs[|rs| - 1].at == m.at then rs
    else Insert(rs[..|rs| - 1], m) + [rs[|rs| - 1]]
  }

  /** The readings of [low, high), in order. */
  function Between(rs: seq<Measurement>, low: Time, high: Time): seq<Measurement> {
    if rs == [] then []
    else
      var last := rs[|rs| - 1];
      var earlier := Between(rs[..|rs| - 1], low, high);
      if low <= last.at < high then earlier + [last] else earlier
  }

  function DayReadings(rs: seq<Measurement>, cal: Calendar, d: int): seq<Measurement> {
    Between(rs, cal.dayStart(d), cal.dayStart(d + 1))
  }

  /** DELETE ... WHERE measured_at < cutoff. */
  function Purge(rs: seq<Measurement>, cutoff: Time): seq<Measurement> {
    if rs == [] then []
    else
      var last := rs[|rs| - 1];
      var earlier := Purge(rs[..|rs| - 1], cutoff);
      if cutoff <= last.at then earlier + [last] else earlier
  }

  lemma {:induction false} OrderedPairs(rs: seq<Measurement>)
    requires Ordered(rs)
    ensures forall i, j :: 0 <= i < j < |rs| ==> rs[i].at < rs[j].at
  {
    if rs != [] {
      var n := |rs| - 1;
      OrderedPairs(rs[..n]);
      assert forall i :: 0 <= i < n ==> rs[i] == rs[..n][i] && rs[i] in rs[..n];
    }
  }

  lemma {:induction false} InsertAdds(rs: seq<Measurement>, m: Measurement)
    requires Ordered(rs)
    ensures forall r :: r in Insert(rs, m) <==> r in rs || (r == m && !Stored(rs, m.at))
    ensures Stored(rs, m.at) ==> Insert(rs, m) == rs
    ensures !Stored(rs, m.at) ==> |Insert(rs, m)| == |rs| + 1
  {
    if rs != [] {
      var last, rest := rs[|rs| - 1], rs[..|rs| - 1];
      assert forall r :: r in rs <==> r in rest || r == last;
      if m.at < last.at {
        InsertAdds(rest, m);
        assert Stored(rs, m.at) ==> Stored(rest, m.at);
      }
    }
  }

  lemma {:induction false} InsertKeepsOrder(rs: seq<Measurement>, m: Measurement)
    requires Ordered(rs)
    ensures Ordered(Insert(rs, m)) && Stored(Insert(rs, m), m.at)
  {
    InsertAdds(rs, m);
    if rs == [] || rs[|rs| - 1].at < m.at {
      assert (rs + [m])[..|rs|] == rs;
      assert m in Insert(rs, m);
      if rs != [] {
        assert forall r :: r in rs <==> r in rs[..|rs| - 1] || r == rs[|rs| - 1];
      }
    } else if rs[|rs| - 1].at != m.at {
      var last, rest := rs[|rs| - 1], rs[..|rs| - 1];
      InsertKeepsOrder(rest, m);
      InsertAdds(rest, m);
      assert (Insert(rest, m) + [last])[..|Insert(rest, m)|] == Insert(rest, m);
    }
  }

  lemma {:induction false} BetweenIs(rs: seq<Measurement>, low: Time, high: Time)
    requires Ordered(rs)
    ensures Ordered(Between(rs, low, high))
    ensures forall r :: r in Between(rs, low, high) <==> r in rs && low <= r.at < high
  {
    if rs != [] {
      var last, rest := rs[|rs| - 1], rs[..|rs| - 1];
      assert forall r :: r in rs <==> r in rest || r == last;
      BetweenIs(rest, low, high);
      var part := Between(rest, low, high);
      if low <= last.at < high {
        assert (part + [last])[..|part|] == part;
        assert AllBefore(part, last.at);
      }
    }
  }

  lemma {:induction false} InsertBetween(rs: seq<Measurement>, m: Measurement, low: Time, high: Time)
    requires Ordered(rs)
    ensures Between(Insert(rs, m), low, high)
         == if low <= m.at < high then Insert(Between(rs, low, high), m) else Between(rs, low, high)
  {
    var part := Between(rs, low, high);
    BetweenIs(rs, low, high);
    if rs == [] || rs[|rs| - 1].at < m.at {
      assert (rs + [m])[..|rs|] == rs;
      AllBeforeNext(rs, m.at);
      if part != [] { assert part[|part| - 1] in rs; }
    } else if m.at < rs[|rs| - 1].at {
      var last, rest := rs[|rs| - 1], rs[..|rs| - 1];
      InsertBetween(rest, m, low, high);
      assert (Insert(rest, m) + [last])[..|Insert(rest, m)|] == Insert(rest, m);
      if low <= last.at < high {
        assert part[..|part| - 1] == Between(rest, low, high);
      }
    }
  }

  lemma AllBeforeNext(rs: seq<Measurement>, t: Time)
    requires Ordered(rs) && (rs == [] || rs[|rs| - 1].at < t)
    ensures AllBefore(rs, t)
  {
    if rs != [] {
      assert forall r :: r in rs <==> r in rs[..|rs| - 1] || r == rs[|rs| - 1];
    }
  }

  lemma DayReadingsAre(rs: seq<Measurement>, cal: Calendar, d: int)
    requires Ordered(rs)
    ensures Ordered(DayReadings(rs, cal, d))
    ensures forall r :: r in DayReadings(rs, cal, d) <==> r in rs && cal.dayOf(r.at) == d
  {
    BetweenIs(rs, cal.dayStart(d), cal.dayStart(d + 1));
    forall r | r in rs
      ensures cal.dayOf(r.at) == d <==> cal.dayStart(d) <= r.at < cal.dayStart(d + 1)
    {
      DayIsItsBounds(cal, r.at, d);
    }
  }

  /** A reading only touches its own day. */
  lemma InsertTouchesItsDay(rs: seq<Measurement>, m: Measurement, cal: Calendar, d: int)
    requires Ordered(rs)
    ensures DayReadings(Insert(rs, m), cal, d)
         == if cal.dayOf(m.at) == d then Insert(DayReadings(rs, cal, d), m) else DayReadings(rs, cal, d)
  {
    DayIsItsBounds(cal, m.at, d);
    InsertBetween(rs, m, cal.dayStart(d), cal.dayStart(d + 1));
  }

  lemma {:induction false} PurgeIs(rs: seq<Measurement>, cutoff: Time)
    requires Ordered(rs)
    ensures Ordered(Purge(rs, cutoff))
    ensures forall r :: r in Purge(rs, cutoff) <==> r in rs && cutoff <= r.at
  {
    if rs != [] {
      var last, rest := rs[|rs| - 1], rs[..|rs| - 1];
      assert forall r :: r in rs <==> r in rest || r == last;
      PurgeIs(rest, cutoff);
      assert (Purge(rest, cutoff) + [last])[..|Purge(rest, cutoff)|] == Purge(rest, cutoff);
    }
  }

  lemma {:induction false} PurgeBetween(rs: seq<Measurement>, cutoff: Time, low: Time, high: Time)
    requires cutoff <= low
    ensures Between(Purge(rs, cutoff), low, high) == Between(rs, low, high)
  {
    if rs != [] {
      var last, rest := rs[|rs| - 1], rs[..|rs| - 1];
      PurgeBetween(rest, cutoff, low, high);
      assert (Purge(rest, cutoff) + [last])[..|Purge(rest, cutoff)|] == Purge(rest, cutoff);
    }
  }

  // ---- one day's aggregate -------------------------------------------------

  datatype Energy = Energy(start: Option<real>, end: Option<real>, consumption: Option<real>)
  datatype Stats = Stats(min: real, avg: real, max: real)
  datatype Summary = Summary(
    count: nat, first: Time, last: Time, energy: Energy, power: Option<Stats>, voltage: Option<Stats>,
    current: Option<Stats>, frequency: Option<Stats>, powerFactor: Option<Stats>)

  /** The finite numbers of a list, in order; negatives included. */
  function FiniteValues(values: seq<C.Value>): seq<real> {
    if values == [] then []
    else
      var last := values[|values| - 1];
      var earlier := FiniteValues(values[..|values| - 1]);
      if last.Finite? then earlier + [last.kwh] else earlier
  }

  function MaxOf(values: seq<real>): (m: real)
    requires values != []
    ensures m in values && forall v :: v in values ==> v <= m
  {
    if |values| == 1 then values[0]
    else
      var last := values[|values| - 1];
      var before := MaxOf(values[..|values| - 1]);
      assert values == values[..|values| - 1] + [last];
      if last < before then before else last
  }

  function MinOf(values: seq<real>): (m: real)
    requires values != []
    ensures m in values && forall v :: v in values ==> m <= v
  {
    if |values| == 1 then values[0]
    else
      var last := values[|values| - 1];
      var before := MinOf(values[..|values| - 1]);
      assert values == values[..|values| - 1] + [last];
      if before < last then before else last
  }

  function SumOf(values: seq<real>): real {
    if values == [] then 0.0 else SumOf(values[..|values| - 1]) + values[|values| - 1]
  }

  /** Values lower than one seen earlier. */
  function Drops(values: seq<real>): nat {
    if |values| <= 1 then 0
    else
      var earlier := values[..|values| - 1];
      Drops(earlier) + if values[|values| - 1] < MaxOf(earlier) then 1 else 0
  }

  function EnergyOf(values: seq<real>): Energy {
    if values == [] then Energy(None, None, None)
    else
      Energy(Some(values[0]), Some(MaxOf(values)),
             if |values| - Drops(values) < 2 then None else Some(MaxOf(values) - values[0]))
  }

  /** The monotone counter scan; its end value is always the day's maximum. */
  method EnergySummary(values: seq<real>) returns (energy: Energy, ignored: nat)
    ensures energy == EnergyOf(values) && ignored == Drops(values)
  {
    if values == [] { return Energy(None, None, None), 0; }
    var last := values[0];
    var accepted: nat := 1;
    ignored := 0;
    for i := 1 to |values|
      invariant last == MaxOf(values[..i])
      invariant ignored == Drops(values[..i]) && accepted + ignored == i
    {
      assert values[..i + 1][..i] == values[..i];
      if values[i] < last {
        ignored := ignored + 1;
      } else {
        last := values[i];
        accepted := accepted + 1;
      }
    }
    assert values[..|values|] == values;
    energy := Energy(Some(values[0]), Some(last), if accepted < 2 then None else Some(last - values[0]));
  }

  function MinAvgMax(values: seq<real>): Option<Stats> {
    if values == [] then None
    else Some(Stats(MinOf(values), SumOf(values) / |values| as real, MaxOf(values)))
  }

  lemma AverageIsBetween(values: seq<real>)
    requires values != []
    ensures var s := MinAvgMax(values).value; s.min <= s.avg <= s.max
  {
    SumBounds(values, MinOf(values), MaxOf(values));
    Quotient(MinOf(values), SumOf(values), MaxOf(values), |values| as real);
  }

  lemma Quotient(low: real, sum: real, high: real, n: real)
    requires n > 0.0 && low * n <= sum <= high * n
    ensures low <= sum / n <= high
  {
    var q := sum / n;
    assert q * n == sum;
    assert q < low ==> (low - q) * n > 0.0;
    assert high < q ==> (q - high) * n > 0.0;
  }

  lemma {:induction false} SumBounds(values: seq<real>, low: real, high: real)
    requires forall v :: v in values ==> low <= v <= high
    ensures low * (|values| as real) <= SumOf(values) <= high * (|values| as real)
  {
    if values != [] {
      var n := |values| - 1;
      assert forall v :: v in values[..n] ==> v in values;
      SumBounds(values[..n], low, high);
      assert values[n] in values;
      var k := n as real;
      assert |values| as real == k + 1.0;
      assert low * (k + 1.0) == low * k + low;
      assert high * (k + 1.0) == high * k + high;
    }
  }

  function Column(rs: seq<Measurement>, metric: Metric): seq<real> {
    FiniteValues(seq(|rs|, i requires 0 <= i < |rs| => rs[i].Get(metric)))
  }

  function EnergyColumn(rs: seq<Measurement>): seq<real> {
    FiniteValues(seq(|rs|, i requires 0 <= i < |rs| => rs[i].energy))
  }

  /** The energy fields of a day's summary. */
  function DailyEnergy(rs: seq<Measurement>): Energy { EnergyOf(EnergyColumn(rs)) }

  function BuildSummary(rs: seq<Measurement>): Summary
    requires rs != []
  {
    Summary(|rs|, rs[0].at, rs[|rs| - 1].at, DailyEnergy(rs),
            MinAvgMax(Column(rs, Power)), MinAvgMax(Column(rs, Voltage)), MinAvgMax(Column(rs, Current)),
            MinAvgMax(Column(rs, Frequency)), MinAvgMax(Column(rs, PowerFactor)))
  }

  // ---- one channel ---------------------------------------------------------

  datatype Channel = Channel(readings: seq<Measurement>, summaries: map<int, Summary>)

  /** The aggregate of a day, if it has any reading. */
  function SummaryOf(readings: seq<Measurement>, cal: Calendar): int -> Option<Summary> {
    d => var measurements := DayReadings(readings, cal, d);
         if measurements == [] then None else Some(BuildSummary(measurements))
  }

  /** `summaries` with the given days deleted and built again. */
  function Overlay(summaries: map<int, Summary>, days: set<int>, built: int -> Option<Summary>): map<int, Summary> {
    map d | d in summaries.Keys + days && (d in days ==> built(d).Some?) ::
      if d in days then built(d).value else summaries[d]
  }

  lemma OverlayTwice(summaries: map<int, Summary>, days: set<int>, more: set<int>, built: int -> Option<Summary>)
    ensures Overlay(Overlay(summaries, days, built), more, built) == Overlay(summaries, days + more, built)
  {
    var once, twice := Overlay(Overlay(summaries, days, built), more, built), Overlay(summaries, days + more, built);
    assert forall d :: d in once <==> d in twice;
    assert forall d :: d in once ==> once[d] == twice[d];
  }

  lemma OverlayOne(summaries: map<int, Summary>, d: int, built: int -> Option<Summary>)
    ensures Overlay(summaries, {d}, built)
         == if built(d).Some? then (summaries - {d})[d := built(d).value] else summaries - {d}
  {
  }

  /** The summaries once the given completed days are deleted and built again. */
  function Rebuilt(ch: Channel, cal: Calendar, days: set<int>): map<int, Summary> {
    Overlay(ch.summaries, days, SummaryOf(ch.readings, cal))
  }

  /** Days before today that have readings but no summary. */
  ghost predicate Unsummarised(ch: Channel, cal: Calendar, today: int, d: int) {
    d < today && d !in ch.summaries && DayReadings(ch.readings, cal, d) != []
  }
}
