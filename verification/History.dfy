/**
 The rows the recovery service and the live ingestion share: the ledger of
 recovered records and, per channel, readings and daily summaries.
 */
module History {
  import opened Basics
  import opened DailySummary
  import C = Consumption

  const POWER_CHANNEL_KEYS := {"power_1", "power_2", "power_3", "power_4"}
  /** First second past the year 9999, where a timestamp stops being representable. */
  const TIMESTAMP_LIMIT := 253_402_300_800
  const MEASUREMENT_RETENTION: Time := 90 * 24 * HOUR
  const SUMMARY_RETENTION_DAYS := 365

  /** Normalized values of one channel of a record; None when the contract rejects them. */
  datatype Values = Values(
    energy: C.Value, power: C.Value, voltage: C.Value, current: C.Value, frequency: C.Value, powerFactor: C.Value)
  /** One record of the device's buffer; captured is in seconds. */
  datatype Record = Record(sequence: int, captured: int, energyChannels: Option<map<string, Option<Values>>>)

  datatype Store = Store(ledger: map<int, Record>, channels: map<string, Channel>)

  predicate Importable(r: Record, channels: map<string, Channel>) {
    && r.sequence >= 1
    && 1 <= r.captured < TIMESTAMP_LIMIT
    && r.energyChannels.Some?
    && forall k :: k in r.energyChannels.value ==>
         k in POWER_CHANNEL_KEYS && k in channels && r.energyChannels.value[k].Some?
  }

  function CapturedAt(r: Record): Time { r.captured * SECOND }

  predicate Measures(r: Record, k: string) {
    r.energyChannels.Some? && k in r.energyChannels.value && r.energyChannels.value[k].Some?
  }

  function MeasurementOf(r: Record, k: string): Measurement
    requires Measures(r, k)
  {
    var v := r.energyChannels.value[k].value;
    Measurement(CapturedAt(r), v.energy, v.power, v.voltage, v.current, v.frequency, v.powerFactor)
  }

  /** A channel after the record's reading is inserted, if it has one. */
  function WithReading(ch: Channel, r: Record, k: string): Channel {
    if Measures(r, k) then ch.(readings := Insert(ch.readings, MeasurementOf(r, k))) else ch
  }

  function WithReadings(channels: map<string, Channel>, r: Record): map<string, Channel> {
    map k | k in channels :: WithReading(channels[k], r, k)
  }

  /** The completed days a fresh record puts in question. */
  function DaysTouched(r: Record, cal: Calendar, today: int): set<(string, int)> {
    if r.energyChannels.None? || cal.dayOf(CapturedAt(r)) >= today then {}
    else set k | k in r.energyChannels.value :: (k, cal.dayOf(CapturedAt(r)))
  }

  /** The records imported so far, how many were new, and the completed days they touch. */
  datatype Import = Import(store: Store, count: nat, affected: set<(string, int)>)

  function ImportRecords(store: Store, records: seq<Record>, cal: Calendar, today: int): Import {
    if records == [] then Import(store, 0, {})
    else ImportRecord(ImportRecords(store, records[..|records| - 1], cal, today), records[|records| - 1], cal, today)
  }

  /** A known sequence adds nothing. */
  function ImportRecord(earlier: Import, r: Record, cal: Calendar, today: int): Import {
    if r.sequence in earlier.store.ledger then earlier
    else
      Import(Store(earlier.store.ledger[r.sequence := r], WithReadings(earlier.store.channels, r)),
             earlier.count + 1, earlier.affected + DaysTouched(r, cal, today))
  }

  function DaysOf(affected: set<(string, int)>, k: string): set<int> {
    set a | a in affected && a.0 == k :: a.1
  }

  function RebuildAll(channels: map<string, Channel>, affected: set<(string, int)>, cal: Calendar): map<string, Channel>
  {
    map k | k in channels :: AfterDays(channels[k], cal, DaysOf(affected, k))
  }

  function AfterDays(ch: Channel, cal: Calendar, days: set<int>): Channel {
    ch.(summaries := Rebuilt(ch, cal, days))
  }

  function PageImport(store: Store, records: seq<Record>, cal: Calendar, today: int): Store {
    var done := ImportRecords(store, records, cal, today);
    Store(done.store.ledger, RebuildAll(done.store.channels, done.affected, cal))
  }

  /** The whole transaction; an unimportable record rolls the page back. */
  function PersistPage(store: Store, records: seq<Record>, cal: Calendar, today: int): Option<Store> {
    if forall r :: r in records ==> Importable(r, store.channels)
    then Some(PageImport(store, records, cal, today))
    else None
  }

  // ---- replay --------------------------------------------------------------

  lemma {:induction false} KnownRecordsImportNothing(store: Store, records: seq<Record>, cal: Calendar, today: int)
    requires forall r :: r in records ==> r.sequence in store.ledger
    ensures ImportRecords(store, records, cal, today) == Import(store, 0, {})
  {
    if records != [] {
      var n := |records| - 1;
      assert forall r :: r in records[..n] ==> r in records;
      KnownRecordsImportNothing(store, records[..n], cal, today);
      assert records[n] in records;
    }
  }

  lemma {:induction false} ImportFillsTheLedger(store: Store, records: seq<Record>, cal: Calendar, today: int)
    ensures var after := ImportRecords(store, records, cal, today).store;
            && (forall r :: r in records ==> r.sequence in after.ledger)
            && (forall s :: s in store.ledger ==> s in after.ledger && after.ledger[s] == store.ledger[s])
            && (forall s :: s in after.ledger ==>
                 s in store.ledger || (after.ledger[s] in records && after.ledger[s].sequence == s))
            && after.channels.Keys == store.channels.Keys
  {
    if records != [] {
      var n := |records| - 1;
      ImportFillsTheLedger(store, records[..n], cal, today);
      assert forall r :: r in records <==> r in records[..n] || r == records[n];
    }
  }

  /** The count is that of the ledger's new rows. */
  lemma {:induction false} ImportCounts(store: Store, records: seq<Record>, cal: Calendar, today: int)
    ensures var done := ImportRecords(store, records, cal, today);
            |done.store.ledger| == |store.ledger| + done.count
  {
    if records != [] {
      ImportCounts(store, records[..|records| - 1], cal, today);
    }
  }

  lemma PersistFillsTheLedger(store: Store, records: seq<Record>, cal: Calendar, today: int)
    requires PersistPage(store, records, cal, today).Some?
    ensures var after := PersistPage(store, records, cal, today).value;
            && (forall r :: r in records ==> r.sequence in after.ledger)
            && store.ledger.Keys <= after.ledger.Keys && after.channels.Keys == store.channels.Keys
  {
    ImportFillsTheLedger(store, records, cal, today);
    assert forall n :: n in store.ledger.Keys ==> n in PersistPage(store, records, cal, today).value.ledger.Keys;
  }

  lemma RebuildNothing(channels: map<string, Channel>, cal: Calendar)
    ensures RebuildAll(channels, {}, cal) == channels
  {
    forall k | k in channels
      ensures Rebuilt(channels[k], cal, DaysOf({}, k)) == channels[k].summaries
    {
      assert DaysOf({}, k) == {};
    }
  }

  /** Replaying a persisted page, on any later day, changes nothing at all. */
  lemma ReplayChangesNothing(store: Store, records: seq<Record>, cal: Calendar, today: int, later: int)
    requires PersistPage(store, records, cal, today).Some?
    ensures var once := PersistPage(store, records, cal, today).value;
            PersistPage(once, records, cal, later) == Some(once)
  {
    var once := PersistPage(store, records, cal, today).value;
    ImportFillsTheLedger(store, records, cal, today);
    KnownRecordsImportNothing(once, records, cal, later);
    RebuildNothing(once.channels, cal);
  }

  // ---- retention -----------------------------------------------------------

  /** Retention deletes no summary of a day whose readings it keeps whole. */
  lemma SummariesOutliveReadings(cal: Calendar, now: Time, d: int)
    requires now - MEASUREMENT_RETENTION <= cal.dayStart(d)
    ensures cal.dayOf(now) - SUMMARY_RETENTION_DAYS <= d
  {
    var today := cal.dayOf(now);
    assert cal.dayStart(today) <= now;
    if d < today {
      DaysAreLong(cal, d, today);
    }
  }

  lemma RecentEnough(cal: Calendar, now: Time, d: int, at: Time)
    requires now - MEASUREMENT_RETENTION <= at < cal.dayStart(d + 1)
    ensures cal.dayOf(now) - SUMMARY_RETENTION_DAYS <= d
  {
    var today := cal.dayOf(now);
    assert cal.dayStart(today) <= now;
    if d + 1 < today {
      DaysAreLong(cal, d + 1, today);
    }
  }
}
