/** Where every stored reading comes from, value by value: a live message or a recovered record. */
module HistoryOrigins {
  import opened Basics
  import opened DailySummary
  import opened History
  import opened HistoryStore
  import opened HistorySystem
  import opened HistoryImport
  import opened HistorySteps

  /** Each value in its own column. */
  predicate SameValues(m: Measurement, v: Values) {
    && m.energy == v.energy && m.power == v.power && m.voltage == v.voltage
    && m.current == v.current && m.frequency == v.frequency && m.powerFactor == v.powerFactor
  }

  /** The record's own reading of a channel: its date, its values. */
  predicate IsReadingOf(m: Measurement, r: Record, k: string) {
    && r.energyChannels.Some? && k in r.energyChannels.value && r.energyChannels.value[k].Some?
    && m.at == r.captured * 1_000_000 && SameValues(m, r.energyChannels.value[k].value)
  }

  predicate DatedBy(r: Record, k: string, at: Time) {
    r.energyChannels.Some? && k in r.energyChannels.value && r.captured * 1_000_000 == at
  }

  // ---- one page --------------------------------------------------------------

  /** Record i is new: not in the ledger, nor earlier in the page. */
  predicate IsNew(store: Store, records: seq<Record>, i: nat)
    requires i < |records|
  {
    records[i].sequence !in store.ledger && forall j :: 0 <= j < i ==> records[j].sequence != records[i].sequence
  }

  /** A new record of the page, before position i, has a reading of the channel at that date. */
  ghost predicate DatedEarlier(store: Store, records: seq<Record>, i: nat, k: string, at: Time)
    requires i <= |records|
  {
    exists j :: 0 <= j < i && IsNew(store, records, j) && DatedBy(records[j], k, at)
  }

  ghost predicate ComesFromPage(store: Store, records: seq<Record>, k: string, m: Measurement) {
    exists j :: 0 <= j < |records| && IsNew(store, records, j) && IsReadingOf(m, records[j], k)
  }

  lemma NewInPrefix(store: Store, records: seq<Record>, n: nat, j: nat)
    requires j < n <= |records|
    ensures records[..n][j] == records[j] && IsNew(store, records[..n], j) == IsNew(store, records, j)
  {
  }

  lemma LastIsNew(store: Store, records: seq<Record>, cal: Calendar, today: int)
    requires records != []
    ensures records[|records| - 1].sequence in ImportRecords(store, records[..|records| - 1], cal, today).store.ledger
       <==> !IsNew(store, records, |records| - 1)
  {
    var n := |records| - 1;
    ImportFillsTheLedger(store, records[..n], cal, today);
    var ledger := ImportRecords(store, records[..n], cal, today).store.ledger;
    if records[n].sequence in ledger && records[n].sequence !in store.ledger {
      var j :| 0 <= j < n && records[..n][j] == ledger[records[n].sequence];
      assert records[j].sequence == records[n].sequence;
    }
    if !IsNew(store, records, n) && records[n].sequence !in store.ledger {
      var j :| 0 <= j < n && records[j].sequence == records[n].sequence;
      assert records[..n][j] in records[..n];
    }
  }

  lemma OneRecordStores(ch: Channel, r: Record, k: string)
    requires Ordered(ch.readings)
    requires (r.energyChannels.Some? && k in r.energyChannels.value ==> r.energyChannels.value[k].Some?)
    ensures var after := WithReading(ch, r, k).readings;
            && Ordered(after) && (forall m :: m in ch.readings ==> m in after)
            && (forall m :: m in after ==> m in ch.readings || IsReadingOf(m, r, k))
            && (DatedBy(r, k, r.captured * 1_000_000) && !Stored(ch.readings, r.captured * 1_000_000)
                ==> exists m :: m in after && IsReadingOf(m, r, k))
  {
    if Measures(r, k) {
      InsertAdds(ch.readings, MeasurementOf(r, k));
      InsertKeepsOrder(ch.readings, MeasurementOf(r, k));
    }
  }

  /** After an import, readings are those stored before and those of new records, verbatim. */
  lemma {:induction false} ImportStores(store: Store, records: seq<Record>, cal: Calendar, today: int, k: string)
    requires k in store.channels && Ordered(store.channels[k].readings)
    requires forall r :: r in records ==> Importable(r, store.channels)
    ensures var after := ImportRecords(store, records, cal, today).store;
            && k in after.channels && Ordered(after.channels[k].readings)
            && (forall m :: m in store.channels[k].readings ==> m in after.channels[k].readings)
            && (forall m :: m in after.channels[k].readings ==>
                  m in store.channels[k].readings || ComesFromPage(store, records, k, m))
  {
    if records != [] {
      var n := |records| - 1;
      var r, earlier := records[n], ImportRecords(store, records[..n], cal, today).store;
      assert r in records && forall q :: q in records[..n] ==> q in records;
      ImportStores(store, records[..n], cal, today, k);
      LastIsNew(store, records, cal, today);
      OneRecordStores(earlier.channels[k], r, k);
      forall m | ComesFromPage(store, records[..n], k, m)
        ensures ComesFromPage(store, records, k, m)
      {
        StillFromPage(store, records, n, k, m);
      }
      if IsNew(store, records, n) {
        assert forall m :: IsReadingOf(m, r, k) ==> ComesFromPage(store, records, k, m);
      }
    }
  }

  lemma StillFromPage(store: Store, records: seq<Record>, n: nat, k: string, m: Measurement)
    requires n <= |records| && ComesFromPage(store, records[..n], k, m)
    ensures ComesFromPage(store, records, k, m)
  {
    var j :| 0 <= j < n && IsNew(store, records[..n], j) && IsReadingOf(m, records[..n][j], k);
    NewInPrefix(store, records, n, j);
  }

  /** Record i is new, measures the channel, and no reading or earlier new record of the channel has its date. */
  ghost predicate IsFirstOfDate(store: Store, records: seq<Record>, i: nat, k: string)
    requires i < |records| && k in store.channels
  {
    var at := records[i].captured * 1_000_000;
    && IsNew(store, records, i) && DatedBy(records[i], k, at)
    && !Stored(store.channels[k].readings, at) && !DatedEarlier(store, records, i, k, at)
  }

  ghost predicate HasReadingOf(readings: seq<Measurement>, r: Record, k: string) {
    exists m :: m in readings && IsReadingOf(m, r, k)
  }

  lemma LastIsStored(store: Store, records: seq<Record>, cal: Calendar, today: int, k: string)
    requires k in store.channels && Ordered(store.channels[k].readings) && records != []
    requires forall r :: r in records ==> Importable(r, store.channels)
    requires IsFirstOfDate(store, records, |records| - 1, k)
    ensures var after := ImportRecords(store, records, cal, today).store;
            k in after.channels && HasReadingOf(after.channels[k].readings, records[|records| - 1], k)
  {
    var n := |records| - 1;
    var earlier := ImportRecords(store, records[..n], cal, today).store;
    assert records[n] in records && forall q :: q in records[..n] ==> q in records;
    ImportStores(store, records[..n], cal, today, k);
    LastIsNew(store, records, cal, today);
    forall m | m in earlier.channels[k].readings
      ensures m.at != records[n].captured * 1_000_000
    {
      if m !in store.channels[k].readings {
        var j :| 0 <= j < n && IsNew(store, records[..n], j) && IsReadingOf(m, records[..n][j], k);
        NewInPrefix(store, records, n, j);
      }
    }
    OneRecordStores(earlier.channels[k], records[n], k);
  }

  /** The first new record with a date for a channel stores its values there, if no reading had that date. */
  lemma {:induction false} NewRecordIsStored(
    store: Store, records: seq<Record>, cal: Calendar, today: int, i: nat, k: string)
    requires k in store.channels && Ordered(store.channels[k].readings)
    requires forall r :: r in records ==> Importable(r, store.channels)
    requires i < |records| && IsFirstOfDate(store, records, i, k)
    ensures var after := ImportRecords(store, records, cal, today).store;
            k in after.channels && HasReadingOf(after.channels[k].readings, records[i], k)
  {
    var n := |records| - 1;
    if i == n {
      LastIsStored(store, records, cal, today, k);
    } else {
      assert records[n] in records && forall q :: q in records[..n] ==> q in records;
      NewInPrefix(store, records, n, i);
      NotDatedInPrefix(store, records, n, i, k, records[i].captured * 1_000_000);
      NewRecordIsStored(store, records[..n], cal, today, i, k);
      ImportStores(store, records[..n], cal, today, k);
      OneRecordStores(ImportRecords(store, records[..n], cal, today).store.channels[k], records[n], k);
    }
  }

  lemma NotDatedInPrefix(store: Store, records: seq<Record>, n: nat, i: nat, k: string, at: Time)
    requires i <= n <= |records| && !DatedEarlier(store, records, i, k, at)
    ensures !DatedEarlier(store, records[..n], i, k, at)
  {
    if DatedEarlier(store, records[..n], i, k, at) {
      var j :| 0 <= j < i && IsNew(store, records[..n], j) && DatedBy(records[..n][j], k, at);
      NewInPrefix(store, records, n, j);
    }
  }

  /**
   An accepted page stores the values of each new record, channel by channel and
   value by value, under the date of the record; a date that had a reading keeps
   the one it had, and nothing else is stored.
   */
  lemma PageIsStoredVerbatim(store: Store, records: seq<Record>, cal: Calendar, today: int, after: Store, k: string)
    requires PersistPage(store, records, cal, today) == Some(after)
    requires k in store.channels && forall q :: q in store.channels ==> Ordered(store.channels[q].readings)
    ensures k in after.channels && Ordered(after.channels[k].readings)
    ensures forall m :: m in store.channels[k].readings ==> m in after.channels[k].readings
    ensures forall m :: m in after.channels[k].readings ==>
              m in store.channels[k].readings || ComesFromPage(store, records, k, m)
    ensures forall i :: 0 <= i < |records| && IsFirstOfDate(store, records, i, k) ==>
              HasReadingOf(after.channels[k].readings, records[i], k)
  {
    ImportStores(store, records, cal, today, k);
    ImportFillsTheLedger(store, records, cal, today);
    forall i | 0 <= i < |records| && IsFirstOfDate(store, records, i, k)
      ensures HasReadingOf(after.channels[k].readings, records[i], k)
    {
      NewRecordIsStored(store, records, cal, today, i, k);
    }
  }

  // ---- whole runs ------------------------------------------------------------

  /** The live message that stored a reading. */
  predicate StoresLive(s: Sys, e: Event, cal: Calendar, k: string, m: Measurement) {
    && e == Live(k, m) && k in s.store.channels && cal.dayOf(m.at) == cal.dayOf(s.now)
    && !Stored(s.store.channels[k].readings, m.at)
  }

  ghost predicate CameLive(start: Sys, events: seq<Event>, cal: Calendar, k: string, m: Measurement) {
    exists i :: 0 <= i < |events| && StoresLive(Run(start, events[..i], cal), events[i], cal, k, m)
  }

  ghost predicate CameFromLedger(ledger: map<int, Record>, k: string, m: Measurement) {
    exists n :: n in ledger && IsReadingOf(m, ledger[n], k)
  }

  ghost predicate HasOrigin(start: Sys, events: seq<Event>, cal: Calendar, s: Sys, k: string, m: Measurement) {
    CameLive(start, events, cal, k, m) || CameFromLedger(s.store.ledger, k, m)
  }

  ghost predicate AllHaveOrigins(start: Sys, events: seq<Event>, cal: Calendar) {
    var s := Run(start, events, cal);
    forall k, m :: k in s.store.channels && m in s.store.channels[k].readings ==> HasOrigin(start, events, cal, s, k, m)
  }

  lemma StillCameLive(start: Sys, events: seq<Event>, cal: Calendar, k: string, m: Measurement)
    requires events != [] && CameLive(start, events[..|events| - 1], cal, k, m)
    ensures CameLive(start, events, cal, k, m)
  {
    var earlier := events[..|events| - 1];
    var i :| 0 <= i < |earlier| && StoresLive(Run(start, earlier[..i], cal), earlier[i], cal, k, m);
    assert earlier[..i] == events[..i];
  }

  lemma StillFromLedger(s: Sys, e: Event, cal: Calendar, k: string, m: Measurement)
    requires CameFromLedger(s.store.ledger, k, m)
    ensures CameFromLedger(Apply(s, e, cal).store.ledger, k, m)
  {
    LedgerOnlyGrows(s, e, cal);
    var q :| q in s.store.ledger && IsReadingOf(m, s.store.ledger[q], k);
    assert IsReadingOf(m, Apply(s, e, cal).store.ledger[q], k);
  }

  lemma LedgerOnlyGrows(s: Sys, e: Event, cal: Calendar)
    ensures var t := Apply(s, e, cal);
            forall n :: n in s.store.ledger ==> n in t.store.ledger && t.store.ledger[n] == s.store.ledger[n]
  {
    if e.Persist? && s.worker.Holding? {
      ImportFillsTheLedger(s.store, s.worker.page, cal, cal.dayOf(s.now));
    }
  }

  /** A reading that a step adds is that of the live message or of a record it puts in the ledger. */
  lemma NewReading(s: Sys, e: Event, cal: Calendar, k: string, m: Measurement)
    requires Inv(s, cal)
    requires var t := Apply(s, e, cal); k in t.store.channels && m in t.store.channels[k].readings
    requires k in s.store.channels ==> m !in s.store.channels[k].readings
    ensures StoresLive(s, e, cal, k, m) || CameFromLedger(Apply(s, e, cal).store.ledger, k, m)
  {
    match e {
      case Live(q, l) =>
        if q in s.store.channels && cal.dayOf(l.at) == cal.dayOf(s.now) { LiveAddsOne(s, q, l, k, m); }
      case Retain(q) =>
        if q in s.store.channels { RetentionAddsNone(s, cal, q, k, m); }
      case Persist => PersistedReading(s, cal, k, m);
      case _ =>
    }
  }

  lemma LiveAddsOne(s: Sys, q: string, l: Measurement, k: string, m: Measurement)
    requires k in s.store.channels && q in s.store.channels && Ordered(s.store.channels[q].readings)
    requires m in With(s, q, WithLive(s.store.channels[q], l)).store.channels[k].readings
    ensures m in s.store.channels[k].readings || (k == q && m == l && !Stored(s.store.channels[q].readings, l.at))
  {
    InsertAdds(s.store.channels[q].readings, l);
  }

  lemma RetentionAddsNone(s: Sys, cal: Calendar, q: string, k: string, m: Measurement)
    requires k in s.store.channels && q in s.store.channels && Ordered(s.store.channels[q].readings)
    requires m in AfterRetain(s, q, cal).store.channels[k].readings
    ensures m in s.store.channels[k].readings
  {
    PurgeIs(s.store.channels[q].readings, s.now - MEASUREMENT_RETENTION);
  }

  lemma PersistedReading(s: Sys, cal: Calendar, k: string, m: Measurement)
    requires Inv(s, cal)
    requires var t := Apply(s, Persist, cal); k in t.store.channels && m in t.store.channels[k].readings
    requires k in s.store.channels ==> m !in s.store.channels[k].readings
    ensures CameFromLedger(Apply(s, Persist, cal).store.ledger, k, m)
  {
    var page, today, t := s.worker.page, cal.dayOf(s.now), AfterPersist(s, cal);
    ImportFillsTheLedger(s.store, page, cal, today);
    PageIsStoredVerbatim(s.store, page, cal, today, t.store, k);
    var j :| 0 <= j < |page| && IsNew(s.store, page, j) && IsReadingOf(m, page[j], k);
    PageRowIsInLedger(s, cal, j);
  }

  lemma PageRowIsInLedger(s: Sys, cal: Calendar, j: nat)
    requires Inv(s, cal) && s.worker.Holding? && AfterPersist(s, cal).worker.Persisted? && j < |s.worker.page|
    ensures InLedger(s.worker.page[j], AfterPersist(s, cal).store)
  {
    var page, t := s.worker.page, AfterPersist(s, cal);
    ImportFillsTheLedger(s.store, page, cal, cal.dayOf(s.now));
    PersistKeepsRecovery(s, cal);
    assert page[j] in page && page[j] in s.appended;
    var row := t.store.ledger[page[j].sequence];
    assert row in s.appended && row.sequence == page[j].sequence;
  }

  /** In every run each stored reading is, value by value, that of a live message or of a ledger row. */
  lemma {:induction false} EveryReadingHasAnOrigin(cal: Calendar, keys: set<string>, now: Time, events: seq<Event>)
    ensures AllHaveOrigins(Start(cal, keys, now), events, cal)
  {
    var start, s := Start(cal, keys, now), Run(Start(cal, keys, now), events, cal);
    if events != [] {
      var n := |events| - 1;
      var before := Run(start, events[..n], cal);
      EveryReadingHasAnOrigin(cal, keys, now, events[..n]);
      StartIsSafe(cal, keys, now);
      RunKeeps(start, events[..n], cal);
      forall k, m | k in s.store.channels && m in s.store.channels[k].readings
        ensures HasOrigin(start, events, cal, s, k, m)
      {
        if k in before.store.channels && m in before.store.channels[k].readings {
          if CameLive(start, events[..n], cal, k, m) {
            StillCameLive(start, events, cal, k, m);
          } else {
            StillFromLedger(before, events[n], cal, k, m);
          }
        } else {
          NewReading(before, events[n], cal, k, m);
          assert events[..n] == events[..|events| - 1];
        }
      }
    }
  }

  /** Another record of the ledger has the same date for the channel, or a live message of that date was stored. */
  ghost predicate Contested(start: Sys, events: seq<Event>, cal: Calendar, r: Record, k: string) {
    var s := Run(start, events, cal);
    || (exists n ::
        n in s.store.ledger && s.store.ledger[n] != r && DatedBy(s.store.ledger[n], k, r.captured * 1_000_000))
    || (exists m: Measurement :: m.at == r.captured * 1_000_000 && CameLive(start, events, cal, k, m))
  }

  /** The device's record has a value for the channel, no deletion has reached its date, and nothing contests it. */
  ghost predicate Uncontested(s: Sys, start: Sys, events: seq<Event>, cal: Calendar, r: Record, k: string) {
    Measures(r, k) && Whole(s.purged, k, r.captured * 1_000_000) && !Contested(start, events, cal, r, k)
  }

  /**
   Every record the device no longer buffers survives value by value: each of its
   channels has a reading of its date with exactly its values, unless a live
   message or another record supplied the reading of that very date.
   */
  lemma ValuesSurvive(
    cal: Calendar, keys: set<string>, now: Time, events: seq<Event>, s: Sys, r: Record, k: string)
    requires s == Run(Start(cal, keys, now), events, cal)
    requires r in s.appended && r.sequence <= s.acked
    requires Uncontested(s, Start(cal, keys, now), events, cal, r, k)
    ensures k in s.store.channels && HasReadingOf(s.store.channels[k].readings, r, k)
  {
    var start := Start(cal, keys, now);
    StartIsSafe(cal, keys, now);
    RunKeeps(start, events, cal);
    EveryReadingHasAnOrigin(cal, keys, now, events);
    assert InLedger(r, s.store) && HasReadings(r, s.store, s.purged);
    var m :| m in s.store.channels[k].readings && m.at == r.captured * 1_000_000;
    assert HasOrigin(start, events, cal, s, k, m);
  }
}
