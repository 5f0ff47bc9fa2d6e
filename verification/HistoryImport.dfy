/** A recovered page among stored readings and summaries: what it adds, and what it keeps. */
module HistoryImport {
  import opened Basics
  import opened DailySummary
  import opened History
  import opened HistoryStore
  import opened HistorySystem

  // ---- what an import does to one channel -------------------------------------

  ghost predicate SameOrMore(before: seq<Measurement>, after: seq<Measurement>) {
    forall r :: r in before ==> r in after
  }

  lemma ReadingIsAdded(ch: Channel, r: Record, k: string)
    requires Ordered(ch.readings)
    ensures var after := WithReading(ch, r, k);
            && Ordered(after.readings) && after.summaries == ch.summaries
            && SameOrMore(ch.readings, after.readings)
            && (Measures(r, k) ==> Stored(after.readings, CapturedAt(r)))
  {
    if Measures(r, k) {
      InsertAdds(ch.readings, MeasurementOf(r, k));
      InsertKeepsOrder(ch.readings, MeasurementOf(r, k));
    }
  }

  lemma ReadingTouchesOneDay(ch: Channel, r: Record, k: string, cal: Calendar, d: int)
    requires Ordered(ch.readings)
    ensures (DayReadings(WithReading(ch, r, k).readings, cal, d) == DayReadings(ch.readings, cal, d))
            || (Measures(r, k) && cal.dayOf(CapturedAt(r)) == d)
  {
    if Measures(r, k) {
      InsertTouchesItsDay(ch.readings, MeasurementOf(r, k), cal, d);
    }
  }

  ghost predicate ChannelImported(before: Channel, after: Channel, cal: Calendar, today: int, days: set<int>) {
    && Ordered(after.readings) && after.summaries == before.summaries
    && SameOrMore(before.readings, after.readings)
    && (forall d :: d in days ==> d < today && exists r :: r in after.readings && cal.dayOf(r.at) == d)
    && (forall d :: d < today && d !in days ==>
          DayReadings(after.readings, cal, d) == DayReadings(before.readings, cal, d))
  }

  function DayTouched(r: Record, k: string, cal: Calendar, today: int): set<int> {
    if Measures(r, k) && cal.dayOf(CapturedAt(r)) < today then {cal.dayOf(CapturedAt(r))} else {}
  }

  lemma DaysOfMore(
    affected: set<(string, int)>, r: Record, k: string, channels: map<string, Channel>, cal: Calendar, today: int)
    requires Importable(r, channels)
    ensures DaysOf(affected + DaysTouched(r, cal, today), k) == DaysOf(affected, k) + DayTouched(r, k, cal, today)
  {
    var day := cal.dayOf(CapturedAt(r));
    var more := DaysTouched(r, cal, today);
    assert forall a :: a in more && a.0 == k ==> Measures(r, k) && a == (k, day) && day < today;
    assert Measures(r, k) && day < today ==> (k, day) in more;
    var left, right := DaysOf(affected + more, k), DaysOf(affected, k) + DayTouched(r, k, cal, today);
    forall d
      ensures d in left <==> d in right
    {
      assert d in left <==> (k, d) in affected + more;
      assert d in DaysOf(affected, k) <==> (k, d) in affected;
    }
  }

  lemma OneRecordImported(
    before: Channel, now: Channel, r: Record, k: string, cal: Calendar, today: int, days: set<int>)
    requires Ordered(now.readings) && ChannelImported(before, now, cal, today, days)
    ensures ChannelImported(before, WithReading(now, r, k), cal, today, days + DayTouched(r, k, cal, today))
  {
    var after, more := WithReading(now, r, k), days + DayTouched(r, k, cal, today);
    ReadingIsAdded(now, r, k);
    forall d | d < today && d !in more
      ensures DayReadings(after.readings, cal, d) == DayReadings(before.readings, cal, d)
    {
      ReadingTouchesOneDay(now, r, k, cal, d);
    }
  }

  lemma {:induction false} ImportEffect(store: Store, records: seq<Record>, cal: Calendar, today: int, k: string)
    requires k in store.channels && Ordered(store.channels[k].readings)
    requires forall r :: r in records ==> Importable(r, store.channels)
    ensures var done := ImportRecords(store, records, cal, today);
            && done.store.channels.Keys == store.channels.Keys
            && ChannelImported(store.channels[k], done.store.channels[k], cal, today, DaysOf(done.affected, k))
  {
    if records != [] {
      var n := |records| - 1;
      var r, earlier := records[n], ImportRecords(store, records[..n], cal, today);
      assert forall q :: q in records <==> q in records[..n] || q == r;
      ImportEffect(store, records[..n], cal, today, k);
      if r.sequence !in earlier.store.ledger {
        DaysOfMore(earlier.affected, r, k, store.channels, cal, today);
        OneRecordImported(store.channels[k], earlier.store.channels[k], r, k, cal, today, DaysOf(earlier.affected, k));
      }
    }
  }

  /** New ledger rows have a stored reading for each of their channels. */
  lemma {:induction false} ImportedAreBacked(
    store: Store, records: seq<Record>, cal: Calendar, today: int, purged: map<string, Time>)
    requires forall k :: k in store.channels ==> Ordered(store.channels[k].readings)
    requires forall r :: r in records ==> Importable(r, store.channels)
    requires Backed(store, purged)
    ensures Backed(ImportRecords(store, records, cal, today).store, purged)
  {
    if records != [] {
      var n := |records| - 1;
      var r, earlier := records[n], ImportRecords(store, records[..n], cal, today);
      assert forall q :: q in records <==> q in records[..n] || q == r;
      ImportedAreBacked(store, records[..n], cal, today, purged);
      forall k | k in store.channels
        ensures k in earlier.store.channels && Ordered(earlier.store.channels[k].readings)
      {
        ImportEffect(store, records[..n], cal, today, k);
      }
      ImportFillsTheLedger(store, records[..n], cal, today);
      if r.sequence !in earlier.store.ledger {
        OneRecordBacked(earlier.store, r, purged);
      }
    }
  }

  lemma OneRecordBacked(store: Store, r: Record, purged: map<string, Time>)
    requires forall k :: k in store.channels ==> Ordered(store.channels[k].readings)
    requires Importable(r, store.channels) && Backed(store, purged)
    ensures Backed(Store(store.ledger[r.sequence := r], WithReadings(store.channels, r)), purged)
  {
    var after := WithReadings(store.channels, r);
    forall k | k in store.channels
      ensures SameOrMore(store.channels[k].readings, after[k].readings)
      ensures Measures(r, k) ==> Stored(after[k].readings, CapturedAt(r))
    {
      ReadingIsAdded(store.channels[k], r, k);
    }
    StillBacked(store, after, purged);
  }

  /** Rows stay backed while channels only gain readings. */
  lemma StillBacked(store: Store, after: map<string, Channel>, purged: map<string, Time>)
    requires Backed(store, purged)
    requires forall k :: k in store.channels ==> k in after && SameOrMore(store.channels[k].readings, after[k].readings)
    ensures Backed(Store(store.ledger, after), purged)
  {
    forall n, k | n in store.ledger && Measures(store.ledger[n], k) && Whole(purged, k, CapturedAt(store.ledger[n]))
      ensures Stored(after[k].readings, CapturedAt(store.ledger[n]))
    {
      assert HasReadings(store.ledger[n], store, purged);
    }
  }

  // ---- persisting a page ------------------------------------------------------

  lemma PersistAgrees(
    ch: Channel, imported: Channel, cal: Calendar, today: int, days: set<int>, purged: map<string, Time>, k: string)
    requires Agrees(ch, cal, today, purged, k) && ChannelImported(ch, imported, cal, today, days)
    ensures Agrees(AfterDays(imported, cal, days), cal, today, purged, k)
    ensures forall d :: d in ch.summaries.Keys + days ==> d in AfterDays(imported, cal, days).summaries
  {
    forall d | d in days
      ensures DayReadings(imported.readings, cal, d) != []
    {
      DayReadingsAre(imported.readings, cal, d);
    }
  }

  lemma PersistedChannel(s: Sys, after: Store, page: seq<Record>, cal: Calendar, k: string)
    requires AllAgree(s, cal) && k in s.store.channels
    requires PersistPage(s.store, page, cal, cal.dayOf(s.now)) == Some(after)
    ensures k in after.channels && Agrees(after.channels[k], cal, cal.dayOf(s.now), s.purged, k)
    ensures forall d :: d in s.store.channels[k].summaries ==> d in after.channels[k].summaries
    ensures forall d :: d < cal.dayOf(s.now) && d !in after.channels[k].summaries ==>
              DayReadings(after.channels[k].readings, cal, d) == DayReadings(s.store.channels[k].readings, cal, d)
  {
    var today := cal.dayOf(s.now);
    var done := ImportRecords(s.store, page, cal, today);
    ImportEffect(s.store, page, cal, today, k);
    PersistAgrees(s.store.channels[k], done.store.channels[k], cal, today, DaysOf(done.affected, k), s.purged, k);
  }

  lemma PersistKeepsSummaries(s: Sys, after: Store, page: seq<Record>, cal: Calendar)
    requires AllAgree(s, cal) && DraftIsCurrent(s, cal)
    requires PersistPage(s.store, page, cal, cal.dayOf(s.now)) == Some(after)
    ensures var t := s.(store := after); AllAgree(t, cal) && DraftIsCurrent(t, cal)
  {
    ImportFillsTheLedger(s.store, page, cal, cal.dayOf(s.now));
    forall k | k in s.store.channels
      ensures k in after.channels && Agrees(after.channels[k], cal, cal.dayOf(s.now), s.purged, k)
    {
      PersistedChannel(s, after, page, cal, k);
    }
    if s.draft.Some? {
      PersistedChannel(s, after, page, cal, s.draft.value.key);
    }
  }

  lemma PersistKeepsRecovery(s: Sys, cal: Calendar)
    requires Recovered(s) && AllAgree(s, cal) && s.worker.Holding?
    ensures Recovered(AfterPersist(s, cal))
  {
    var page, today := s.worker.page, cal.dayOf(s.now);
    var t := AfterPersist(s, cal);
    if t.worker.Persisted? {
      var done := ImportRecords(s.store, page, cal, today);
      ImportFillsTheLedger(s.store, page, cal, today);
      ImportedAreBacked(s.store, page, cal, today, s.purged);
      StillBacked(done.store, t.store.channels, s.purged);
      LedgerGains(s, page, t.store);
    }
  }

  lemma LedgerGains(s: Sys, page: seq<Record>, after: Store)
    requires Ascending(s.appended) && forall r :: r in page ==> r in s.appended && r.sequence in after.ledger
    requires LedgerIsOfTheDevice(s.(store := after))
    requires forall n :: n in s.store.ledger ==> n in after.ledger && after.ledger[n] == s.store.ledger[n]
    ensures forall r :: r in s.appended && (InLedger(r, s.store) || r in page) ==> InLedger(r, after)
  {
    forall r | r in s.appended && (InLedger(r, s.store) || r in page)
      ensures InLedger(r, after)
    {
      var row := after.ledger[r.sequence];
      assert row in s.appended && row.sequence == r.sequence;
    }
  }

  lemma PersistKeeps(s: Sys, cal: Calendar)
    requires Inv(s, cal) && s.worker.Holding?
    ensures Inv(AfterPersist(s, cal), cal)
  {
    PersistKeepsRecovery(s, cal);
    var after := PersistPage(s.store, s.worker.page, cal, cal.dayOf(s.now));
    if after.Some? {
      PersistKeepsSummaries(s, after.value, s.worker.page, cal);
    }
  }
}
