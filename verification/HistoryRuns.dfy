/** The service itself storing a live reading late, on a day whose summary an import has built. */
module HistoryRuns {
  import opened Basics
  import opened DailySummary
  import opened History
  import opened HistoryStore
  import HS = HistorySystem
  import HW = HistoryWriters
  import HL = HistoryLaws
  import C = Consumption

  const KEY := "power_1"
  const READ := Values(C.Finite(1.0), C.Null, C.Null, C.Null, C.Null, C.Null)

  /** A record of the day's first whole second after it began. */
  function RecordOf(cal: Calendar, d: int): Record {
    Record(1, cal.dayStart(d) / SECOND + 1, Some(map[KEY := Some(READ)]))
  }

  /** A live reading of the same day, more than the sampling interval later. */
  function LateReading(cal: Calendar, d: int, interval: Time): Measurement {
    Measurement(CapturedAt(RecordOf(cal, d)) + interval + SECOND, C.Finite(2.0), C.Null, C.Null, C.Null, C.Null, C.Null)
  }

  lemma BothAreOfTheDay(cal: Calendar, d: int, interval: Time)
    requires 0 <= interval <= HOUR
    ensures cal.dayOf(CapturedAt(RecordOf(cal, d))) == d && cal.dayOf(LateReading(cal, d, interval).at) == d
  {
    var start := cal.dayStart(d);
    assert start + 22 * HOUR <= cal.dayStart(d + 1);
    assert start < (start / SECOND + 1) * SECOND <= start + SECOND;
    DayIsItsBounds(cal, CapturedAt(RecordOf(cal, d)), d);
    DayIsItsBounds(cal, LateReading(cal, d, interval).at, d);
  }

  lemma SingleReading(m: Measurement, cal: Calendar, d: int)
    requires cal.dayOf(m.at) == d
    ensures Ordered([m]) && SummaryOf([m], cal)(d).Some?
  {
    var rs := [m];
    assert rs[..|rs| - 1] == [] && Ordered([]) && AllBefore([], rs[|rs| - 1].at);
    assert m in rs;
    DayReadingsAre(rs, cal, d);
    assert m in DayReadings(rs, cal, d);
  }

  lemma SingleRecord(store: Store, r: Record, cal: Calendar, today: int)
    requires r.sequence !in store.ledger
    ensures ImportRecords(store, [r], cal, today)
         == Import(Store(store.ledger[r.sequence := r], WithReadings(store.channels, r)), 1, DaysTouched(r, cal, today))
  {
    assert [r][..|[r]| - 1] == [];
    assert ImportRecords(store, [], cal, today) == Import(store, 0, {});
  }

  /** After the import: one reading, and the summary built from it. */
  lemma ImportSummarises(store: Store, cal: Calendar, d: int)
    requires store == Store(map[], map[KEY := Channel([], map[])])
    requires cal.dayOf(CapturedAt(RecordOf(cal, d))) == d
    ensures var after := PageImport(store, [RecordOf(cal, d)], cal, d + 1);
            && KEY in after.channels
            && after.channels[KEY].readings == [MeasurementOf(RecordOf(cal, d), KEY)]
            && d in after.channels[KEY].summaries
            && HS.IsSummaryOf(after.channels[KEY].summaries[d], after.channels[KEY].readings, cal, d)
  {
    var r, m := RecordOf(cal, d), MeasurementOf(RecordOf(cal, d), KEY);
    SingleRecord(store, r, cal, d + 1);
    SingleReading(m, cal, d);
    assert (KEY, d) in DaysTouched(r, cal, d + 1);
    assert d in DaysOf(DaysTouched(r, cal, d + 1), KEY);
  }

  lemma LateReadingSpoils(ch: Channel, late: Measurement, cal: Calendar, d: int, now: Time, after: Channel)
    requires Ordered(ch.readings) && d in ch.summaries && HS.IsSummaryOf(ch.summaries[d], ch.readings, cal, d)
    requires !Stored(ch.readings, late.at) && cal.dayOf(late.at) == d
    requires SummarisedThenPurged(HS.WithLive(ch, late), cal, d, now, after)
    requires now - MEASUREMENT_RETENTION <= cal.dayStart(d)
    ensures d in after.summaries && !HS.IsSummaryOf(after.summaries[d], after.readings, cal, d)
  {
    var with := HS.WithLive(ch, late);
    var summaries :| Summarised(with, cal, d, summaries)
      && after == Channel(Purge(with.readings, now - MEASUREMENT_RETENTION),
           RecentSummaries(summaries, cal.dayOf(now)));
    HL.LateReadingChangesCount(ch.readings, late, cal);
    HW.RetainedDay(with.(summaries := summaries), cal, now, d);
  }

  /**
   A record of day d is imported on the next day, and builds the day's summary;
   then a live reading of day d arrives. The service saves it, and the stored
   summary is no longer that of the day's readings.
   */
  method LateReadingSpoilsItsSummary(cal: Calendar, d: int, interval: Time)
    returns (imported: Option<nat>, outcome: LiveOutcome, after: Channel)
    requires 0 <= interval <= HOUR && 0 <= cal.dayStart(d) && cal.dayStart(d) / SECOND + 1 < TIMESTAMP_LIMIT
    requires cal.dayStart(d + 1) <= cal.dayStart(d) + 26 * HOUR
    ensures imported == Some(1) && outcome == Saved
    ensures d in after.summaries && !HS.IsSummaryOf(after.summaries[d], after.readings, cal, d)
  {
    BothAreOfTheDay(cal, d, interval);
    var repository := new Repository(cal, interval, {KEY});
    imported := ImportFirst(repository, d);
    SingleReading(MeasurementOf(RecordOf(cal, d), KEY), cal, d);
    outcome, after := SaveLate(repository, d, LateReading(cal, d, interval));
  }

  lemma ImportIsAccepted(store: Store, r: Record, cal: Calendar, today: int)
    requires Importable(r, store.channels) && r.sequence !in store.ledger
    ensures History.PersistPage(store, [r], cal, today) == Some(PageImport(store, [r], cal, today))
    ensures ImportRecords(store, [r], cal, today).count == 1
  {
    SingleRecord(store, r, cal, today);
  }

  method ImportFirst(repository: Repository, d: int) returns (imported: Option<nat>)
    requires repository.Valid() && repository.Rows() == Store(map[], map[KEY := Channel([], map[])])
    requires 1 <= RecordOf(repository.cal, d).captured < TIMESTAMP_LIMIT
    requires repository.cal.dayOf(CapturedAt(RecordOf(repository.cal, d))) == d
    modifies repository`ledger, repository`channels
    ensures repository.Valid() && imported == Some(1) && KEY in repository.channels
    ensures repository.channels[KEY].readings == [MeasurementOf(RecordOf(repository.cal, d), KEY)]
    ensures d in repository.channels[KEY].summaries
    ensures HS.IsSummaryOf(repository.channels[KEY].summaries[d], repository.channels[KEY].readings, repository.cal, d)
  {
    var r := RecordOf(repository.cal, d);
    ghost var before := repository.Rows();
    ImportSummarises(before, repository.cal, d);
    ImportIsAccepted(before, r, repository.cal, d + 1);
    imported := repository.PersistPage([r], d + 1);
    assert repository.Rows() == PageImport(before, [r], repository.cal, d + 1);
  }

  method SaveLate(repository: Repository, d: int, late: Measurement) returns (outcome: LiveOutcome, after: Channel)
    requires repository.Valid() && KEY in repository.channels
    requires KEY !in repository.lastMeasured && KEY !in repository.checkedDate
    requires d in repository.channels[KEY].summaries && repository.cal.dayOf(late.at) == d
    requires HS.IsSummaryOf(repository.channels[KEY].summaries[d], repository.channels[KEY].readings, repository.cal, d)
    requires !Stored(repository.channels[KEY].readings, late.at)
    requires repository.cal.dayStart(d + 1) - MEASUREMENT_RETENTION <= repository.cal.dayStart(d)
    modifies repository
    ensures outcome == Saved
    ensures d in after.summaries && !HS.IsSummaryOf(after.summaries[d], after.readings, repository.cal, d)
  {
    ghost var ch := repository.channels[KEY];
    ghost var now := repository.cal.dayStart(d + 1);
    outcome := repository.PersistLive(KEY, late, repository.cal.dayStart(d + 1));
    after := repository.channels[KEY];
    LateReadingSpoils(ch, late, repository.cal, d, now, after);
  }
}
