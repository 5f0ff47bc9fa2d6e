/** The services over those rows, updating them in place. */
module HistoryStore {
  import opened Basics
  import opened DailySummary
  import opened History

  datatype LiveOutcome = Skipped | Duplicate | Saved

  class Repository {
    const cal: Calendar
    /** POWER_HISTORY_INTERVAL_SECONDS: live readings closer than this are dropped. */
    const interval: Time
    var ledger: map<int, Record>
    var channels: map<string, Channel>
    /** Latest live date stored per channel, and the day each channel was last checked. */
    var lastMeasured: map<string, Time>
    var checkedDate: map<string, int>

    constructor (cal: Calendar, interval: Time, keys: set<string>)
      ensures this.cal == cal && this.interval == interval
      ensures Rows() == Store(map[], map k | k in keys :: Channel([], map[]))
      ensures lastMeasured == map[] && checkedDate == map[]
    {
      this.cal, this.interval := cal, interval;
      ledger := map[];
      channels := map k | k in keys :: Channel([], map[]);
      lastMeasured, checkedDate := map[], map[];
    }

    ghost function Rows(): Store
      reads this
    {
      Store(ledger, channels)
    }

    ghost predicate Valid()
      reads this
    {
      forall k :: k in channels ==> Ordered(channels[k].readings)
    }

    // ---- summaries ---------------------------------------------------------

    method RebuildCompletedDay(k: string, day: int, today: int) returns (rebuilt: bool)
      requires k in channels
      modifies this`channels
      ensures rebuilt == (day < today)
      ensures channels == if day < today
                          then old(channels)[k := AfterDays(old(channels[k]), cal, {day})]
                          else old(channels)
    {
      if day >= today { return false; }
      var ch := channels[k];
      var built := SummaryOf(ch.readings, cal)(day);
      var summaries := ch.summaries - {day};
      if built.Some? {
        summaries := summaries[day := built.value];
      }
      OverlayOne(ch.summaries, day, SummaryOf(ch.readings, cal));
      channels := channels[k := ch.(summaries := summaries)];
      return true;
    }

    method SummarizeCompletedDays(k: string, today: int) returns (created: nat)
      requires Valid() && k in channels
      modifies this`channels
      ensures Valid() && channels.Keys == old(channels).Keys
      ensures channels == old(channels)[k := old(channels[k]).(summaries := channels[k].summaries)]
      ensures Summarised(old(channels[k]), cal, today, channels[k].summaries)
      ensures created == |channels[k].summaries| - |old(channels[k]).summaries|
    {
      var summaries;
      summaries, created := AddMissing(channels[k], cal, today);
      channels := channels[k := channels[k].(summaries := summaries)];
    }

    method Cleanup(k: string, now: Time, today: int)
      requires Valid() && k in channels
      modifies this`channels
      ensures Valid() && channels.Keys == old(channels).Keys
      ensures forall r :: r in channels[k].readings
                <==> r in old(channels)[k].readings && now - 90 * 24 * HOUR <= r.at
      ensures forall d :: d in channels[k].summaries
                <==> d in old(channels)[k].summaries && today - 365 <= d
      ensures forall d :: d in channels[k].summaries ==> channels[k].summaries[d] == old(channels)[k].summaries[d]
      ensures channels == old(channels)[k := Channel(Purge(old(channels[k]).readings, now - MEASUREMENT_RETENTION),
                                                     RecentSummaries(old(channels[k]).summaries, today))]
    {
      var ch := channels[k];
      PurgeIs(ch.readings, now - MEASUREMENT_RETENTION);
      channels := channels[k := Channel(Purge(ch.readings, now - MEASUREMENT_RETENTION),
          RecentSummaries(ch.summaries, today))];
    }

    // ---- live ingestion ----------------------------------------------------

    /**
     Stores one live reading, unless it is older than the last one or within the
     sampling interval of it; then once per local day summarises and purges.
     */
    method PersistLive(k: string, m: Measurement, now: Time) returns (outcome: LiveOutcome)
      requires Valid()
      modifies this
      ensures Valid() && ledger == old(ledger) && channels.Keys == old(channels).Keys
      ensures forall other :: other in channels && other != k ==> channels[other] == old(channels)[other]
      ensures outcome.Skipped? <==>
                || k !in old(channels)
                || (k in old(lastMeasured)
                    && (m.at < old(lastMeasured)[k] || m.at - old(lastMeasured)[k] < interval))
      ensures !outcome.Saved? ==> channels == old(channels) && checkedDate == old(checkedDate)
      ensures lastMeasured == if outcome.Skipped? then old(lastMeasured) else old(lastMeasured)[k := m.at]
      ensures outcome.Duplicate? <==> !outcome.Skipped? && Stored(old(channels)[k].readings, m.at)
      ensures outcome.Saved? ==>
                && checkedDate == old(checkedDate)[k := cal.dayOf(m.at)]
                && var ch := old(channels)[k].(readings := Insert(old(channels)[k].readings, m));
                   if k in old(checkedDate) && old(checkedDate)[k] == cal.dayOf(m.at)
                   then channels[k] == ch
                   else SummarisedThenPurged(ch, cal, cal.dayOf(m.at), now, channels[k])
    {
      if k !in channels { return Skipped; }
      if k in lastMeasured {
        var elapsed := m.at - lastMeasured[k];
        if elapsed < 0 { return Skipped; }
        if elapsed < interval { return Skipped; }
      }
      var ch := channels[k];
      if Stored(ch.readings, m.at) {
        lastMeasured := lastMeasured[k := m.at];
        return Duplicate;
      }
      InsertReading(k, m);
      CheckDay(k, cal.dayOf(m.at), now);
      return Saved;
    }

    method InsertReading(k: string, m: Measurement)
      requires Valid() && k in channels
      modifies this`channels, this`lastMeasured
      ensures Valid() && lastMeasured == old(lastMeasured)[k := m.at]
      ensures channels == old(channels)[k := old(channels)[k].(readings := Insert(old(channels)[k].readings, m))]
    {
      InsertKeepsOrder(channels[k].readings, m);
      channels := channels[k := channels[k].(readings := Insert(channels[k].readings, m))];
      lastMeasured := lastMeasured[k := m.at];
    }

    /** Once per local day and channel: summarise the days before it, then apply retention. */
    method CheckDay(k: string, day: int, now: Time)
      requires Valid() && k in channels
      modifies this`channels, this`checkedDate
      ensures Valid() && channels.Keys == old(channels).Keys
      ensures forall other :: other in channels && other != k ==> channels[other] == old(channels)[other]
      ensures checkedDate == old(checkedDate)[k := day]
      ensures if k in old(checkedDate) && old(checkedDate)[k] == day
              then channels == old(channels)
              else SummarisedThenPurged(old(channels)[k], cal, day, now, channels[k])
    {
      if k in checkedDate && checkedDate[k] == day { return; }
      var created := SummarizeCompletedDays(k, day);
      ghost var summaries := channels[k].summaries;
      Cleanup(k, now, cal.dayOf(now));
      assert Summarised(old(channels)[k], cal, day, summaries);
      checkedDate := checkedDate[k := day];
    }

    // ---- recovered pages ---------------------------------------------------

    method PersistPage(records: seq<Record>, today: int) returns (imported: Option<nat>)
      requires Valid()
      modifies this`ledger, this`channels
      ensures Valid()
      ensures match History.PersistPage(old(Rows()), records, cal, today)
              case Some(after) => Rows() == after
                  && imported == Some(ImportRecords(old(Rows()), records, cal, today).count)
                  && |ledger| == |old(ledger)| + imported.value
              case None => Rows() == old(Rows()) && imported == None
    {
      var savedLedger, savedChannels := ledger, channels;
      var valid, count, affected := ImportAll(records, today);
      ImportCounts(old(Rows()), records, cal, today);
      if !valid {
        ledger, channels := savedLedger, savedChannels;
        return None;
      }
      RebuildDays(affected, today);
      return Some(count);
    }

    /** Imports record after record, up to the first unimportable one. */
    method ImportAll(records: seq<Record>, today: int) returns (valid: bool, count: nat, affected: set<(string, int)>)
      requires Valid()
      modifies this`ledger, this`channels
      ensures Valid()
      ensures valid <==> forall r :: r in records ==> Importable(r, old(channels))
      ensures valid ==> ImportRecords(old(Rows()), records, cal, today) == Import(Rows(), count, affected)
      ensures valid ==> channels.Keys == old(channels).Keys && AreCompleted(affected, channels.Keys, today)
    {
      ghost var before := Rows();
      valid, count, affected := true, 0, {};
      for i := 0 to |records|
        invariant valid && Valid() && channels.Keys == before.channels.Keys
        invariant ImportRecords(before, records[..i], cal, today) == Import(Rows(), count, affected)
        invariant forall r :: r in records[..i] ==> Importable(r, before.channels)
        invariant AreCompleted(affected, channels.Keys, today)
      {
        OneRecordFurther(before, records, i, cal, today);
        SameKeysSameRecords(records[i], before.channels, channels);
        valid, count, affected := ImportNext(records[i], today, count, affected);
        if !valid { return; }
      }
      assert records[..|records|] == records;
    }

    method ImportNext(r: Record, today: int, count: nat, affected: set<(string, int)>)
      returns (valid: bool, count': nat, affected': set<(string, int)>)
      requires Valid() && AreCompleted(affected, channels.Keys, today)
      modifies this`ledger, this`channels
      ensures Valid() && channels.Keys == old(channels).Keys
      ensures valid == Importable(r, old(channels)) && AreCompleted(affected', channels.Keys, today)
      ensures valid ==>
                Import(Rows(), count', affected') == ImportRecord(Import(old(Rows()), count, affected), r, cal, today)
    {
      if !Importable(r, channels) { return false, count, affected; }
      if r.sequence in ledger { return true, count, affected; }
      ledger := ledger[r.sequence := r];
      InsertReadings(r);
      return true, count + 1, affected + DaysTouched(r, cal, today);
    }

    method InsertReadings(r: Record)
      requires Valid() && Importable(r, channels)
      modifies this`channels
      ensures Valid() && channels == WithReadings(old(channels), r)
    {
      var rest := r.energyChannels.value.Keys;
      while rest != {}
        invariant rest <= r.energyChannels.value.Keys <= channels.Keys == old(channels).Keys
        invariant forall k :: k in channels ==>
                    channels[k] == if k in rest then old(channels)[k] else WithReading(old(channels)[k], r, k)
        invariant Valid()
        decreases rest
      {
        var k :| k in rest;
        InsertKeepsOrder(channels[k].readings, MeasurementOf(r, k));
        channels := channels[k := WithReading(channels[k], r, k)];
        rest := rest - {k};
      }
    }

    method RebuildDays(affected: set<(string, int)>, today: int)
      requires Valid()
      requires AreCompleted(affected, channels.Keys, today)
      modifies this`channels
      ensures Valid() && channels == RebuildAll(old(channels), affected, cal)
    {
      var done: set<(string, int)> := {};
      RebuildNothing(channels, cal);
      while done != affected
        invariant done <= affected
        invariant channels == RebuildAll(old(channels), done, cal)
        decreases affected - done
      {
        assert affected - done != {};
        var a :| a in affected - done;
        OneMoreRebuilt(old(channels), channels, cal, done, a);
        var rebuilt := RebuildCompletedDay(a.0, a.1, today);
        done := done + {a};
      }
    }
  }

  function RecentSummaries(summaries: map<int, Summary>, today: int): map<int, Summary> {
    map d | d in summaries && today - SUMMARY_RETENTION_DAYS <= d :: summaries[d]
  }

  /** `summaries` keeps what was there and adds exactly the missing completed days. */
  ghost predicate Summarised(ch: Channel, cal: Calendar, today: int, summaries: map<int, Summary>) {
    && (forall d :: d in ch.summaries ==> d in summaries && summaries[d] == ch.summaries[d])
    && (forall d :: d in summaries && d !in ch.summaries ==>
          Unsummarised(ch, cal, today, d) && summaries[d] == BuildSummary(DayReadings(ch.readings, cal, d)))
    && (forall d :: Unsummarised(ch, cal, today, d) ==> d in summaries)
  }

  ghost predicate SummarisedThenPurged(ch: Channel, cal: Calendar, day: int, now: Time, after: Channel) {
    exists summaries :: Summarised(ch, cal, day, summaries)
      && after == Channel(Purge(ch.readings, now - MEASUREMENT_RETENTION), RecentSummaries(summaries, cal.dayOf(now)))
  }

  /** Walks from the oldest reading's day to yesterday, adding each missing summary. */
  method AddMissing(ch: Channel, cal: Calendar, today: int) returns (summaries: map<int, Summary>, created: nat)
    requires Ordered(ch.readings)
    ensures Summarised(ch, cal, today, summaries)
    ensures created == |summaries| - |ch.summaries|
  {
    summaries, created := ch.summaries, 0;
    if ch.readings == [] { return; }
    var candidate := cal.dayOf(ch.readings[0].at);
    NothingBeforeOldest(ch.readings, cal);
    while candidate < today
      invariant SummarisedBefore(ch, cal, today, candidate, summaries)
      invariant created == |summaries| - |ch.summaries|
    {
      ghost var before := summaries;
      var measurements := DayReadings(ch.readings, cal, candidate);
      if candidate !in summaries && measurements != [] {
        summaries := summaries[candidate := BuildSummary(measurements)];
        created := created + 1;
      }
      OneDayFurther(ch, cal, today, candidate, before, summaries);
      candidate := candidate + 1;
    }
  }

  ghost predicate SummarisedBefore(ch: Channel, cal: Calendar, today: int, limit: int, summaries: map<int, Summary>) {
    && (forall d :: d in ch.summaries ==> d in summaries && summaries[d] == ch.summaries[d])
    && (forall d :: d in summaries && d !in ch.summaries ==>
          d < limit && Unsummarised(ch, cal, today, d)
              && summaries[d] == BuildSummary(DayReadings(ch.readings, cal, d)))
    && (forall d :: d < limit && Unsummarised(ch, cal, today, d) ==> d in summaries)
  }

  lemma OneDayFurther(
    ch: Channel, cal: Calendar, today: int, d: int, summaries: map<int, Summary>, after: map<int, Summary>)
    requires SummarisedBefore(ch, cal, today, d, summaries) && d < today
    requires d in summaries || DayReadings(ch.readings, cal, d) == [] ==> after == summaries
    requires d !in summaries && DayReadings(ch.readings, cal, d) != [] ==>
               after == summaries[d := BuildSummary(DayReadings(ch.readings, cal, d))]
    ensures SummarisedBefore(ch, cal, today, d + 1, after)
  {
  }

  predicate AreCompleted(affected: set<(string, int)>, keys: set<string>, today: int) {
    forall a :: a in affected ==> a.0 in keys && a.1 < today
  }

  lemma SameKeysSameRecords(r: Record, one: map<string, Channel>, two: map<string, Channel>)
    requires one.Keys == two.Keys
    ensures Importable(r, one) <==> Importable(r, two)
  {
    assert forall k :: k in one <==> k in two;
  }

  lemma OneRecordFurther(store: Store, records: seq<Record>, i: nat, cal: Calendar, today: int)
    requires i < |records|
    ensures ImportRecords(store, records[..i + 1], cal, today)
         == ImportRecord(ImportRecords(store, records[..i], cal, today), records[i], cal, today)
    ensures forall q :: q in records[..i + 1] <==> q in records[..i] || q == records[i]
    ensures records[i] in records
  {
    assert records[..i + 1][..i] == records[..i];
  }

  lemma OneMoreRebuilt(
    before: map<string, Channel>, now: map<string, Channel>, cal: Calendar, done: set<(string, int)>, a: (string, int))
    requires a.0 in before && now == RebuildAll(before, done, cal)
    ensures now[a.0 := AfterDays(now[a.0], cal, {a.1})] == RebuildAll(before, done + {a}, cal)
  {
    var one, all := now[a.0 := AfterDays(now[a.0], cal, {a.1})], RebuildAll(before, done + {a}, cal);
    assert one.Keys == all.Keys;
    forall k | k in before
      ensures one[k] == all[k]
    {
      RebuiltEntry(before, cal, done, a, k);
    }
  }

  lemma RebuiltEntry(before: map<string, Channel>, cal: Calendar, done: set<(string, int)>, a: (string, int), k: string)
    requires k in before
    ensures RebuildAll(before, done + {a}, cal)[k]
         == if k == a.0 then AfterDays(RebuildAll(before, done, cal)[k], cal, {a.1})
            else RebuildAll(before, done, cal)[k]
  {
    RebuiltAt(before[k], cal, done, a, k);
  }

  lemma RebuiltAt(ch: Channel, cal: Calendar, done: set<(string, int)>, a: (string, int), k: string)
    ensures AfterDays(ch, cal, DaysOf(done + {a}, k))
         == if k == a.0 then AfterDays(AfterDays(ch, cal, DaysOf(done, k)), cal, {a.1})
             else AfterDays(ch, cal, DaysOf(done, k))
  {
    OneMoreDay(done, a, k);
    OverlayTwice(ch.summaries, DaysOf(done, k), {a.1}, SummaryOf(ch.readings, cal));
  }

  lemma OneMoreDay(done: set<(string, int)>, a: (string, int), k: string)
    ensures DaysOf(done + {a}, k) == if k == a.0 then DaysOf(done, k) + {a.1} else DaysOf(done, k)
  {
  }

  lemma NothingBeforeOldest(readings: seq<Measurement>, cal: Calendar)
    requires Ordered(readings) && readings != []
    ensures forall d :: d < cal.dayOf(readings[0].at) ==> DayReadings(readings, cal, d) == []
  {
    FirstIsOldest(readings);
    forall d | d < cal.dayOf(readings[0].at)
      ensures DayReadings(readings, cal, d) == []
    {
      DayReadingsAre(readings, cal, d);
      var day := DayReadings(readings, cal, d);
      if day != [] {
        assert day[0] in day;
        LaterIsNoEarlierDay(cal, readings[0].at, day[0].at);
      }
    }
  }

  lemma {:induction false} FirstIsOldest(readings: seq<Measurement>)
    requires Ordered(readings) && readings != []
    ensures forall r :: r in readings ==> readings[0].at <= r.at
  {
    var n := |readings| - 1;
    if n > 0 {
      FirstIsOldest(readings[..n]);
      assert readings[0] in readings[..n];
      assert forall r :: r in readings <==> r in readings[..n] || r == readings[n];
    }
  }
}
