/** What every run of device, network, worker, live storage, summariser and retention guarantees. */
module HistoryLaws {
  import opened Basics
  import opened DailySummary
  import opened History
  import opened HistoryStore
  import opened HistorySystem
  import opened HistoryImport
  import opened HistoryWriters
  import opened HistorySteps
  import opened HistoryOrigins
  import P = SummaryPlain

  /**
   Whatever is lost, repeated or interrupted: every record the device no longer
   buffers is in the ledger under its own number, unchanged, with a stored
   reading for each of its channels (until retention reaches its date). That
   reading has the record's values, each in its column, unless a live message or
   another record supplied the reading of that very date.
   */
  lemma RecoveryLosesNothing(cal: Calendar, keys: set<string>, now: Time, events: seq<Event>, s: Sys, r: Record)
    requires s == Run(Start(cal, keys, now), events, cal) && r in s.appended && r.sequence <= s.acked
    ensures InLedger(r, s.store) && HasReadings(r, s.store, s.purged)
    ensures forall k :: Uncontested(s, Start(cal, keys, now), events, cal, r, k) ==>
              k in s.store.channels && HasReadingOf(s.store.channels[k].readings, r, k)
  {
    StartIsSafe(cal, keys, now);
    RunKeeps(Start(cal, keys, now), events, cal);
    forall k | Uncontested(s, Start(cal, keys, now), events, cal, r, k)
      ensures k in s.store.channels && HasReadingOf(s.store.channels[k].readings, r, k)
    {
      ValuesSurvive(cal, keys, now, events, s, r, k);
    }
  }

  /** The ledger holds records of the device only, each once and under its own number. */
  lemma {:induction false} LedgerHoldsOnlyRecords(
    cal: Calendar, keys: set<string>, now: Time, events: seq<Event>, n: int)
    ensures var s := Run(Start(cal, keys, now), events, cal);
            n in s.store.ledger ==>
              && s.store.ledger[n] in s.appended && s.store.ledger[n].sequence == n
              && forall i :: 0 <= i < |s.appended| && s.appended[i].sequence == n ==> s.appended[i] == s.store.ledger[n]
  {
    StartIsSafe(cal, keys, now);
    RunKeeps(Start(cal, keys, now), events, cal);
  }

  lemma StepForgetsNothing(s: Sys, e: Event, cal: Calendar)
    ensures var t := Apply(s, e, cal);
            && s.acked <= t.acked && s.inFlight <= t.inFlight
            && (forall n :: n in s.store.ledger ==> n in t.store.ledger && t.store.ledger[n] == s.store.ledger[n])
  {
    if e.Persist? && s.worker.Holding? {
      ImportFillsTheLedger(s.store, s.worker.page, cal, cal.dayOf(s.now));
    }
  }

  /** A ledger row is never changed or removed, and an acknowledgement never taken back. */
  lemma {:induction false} RunForgetsNothing(s: Sys, events: seq<Event>, cal: Calendar)
    ensures var t := Run(s, events, cal);
            && s.acked <= t.acked
            && (forall n :: n in s.store.ledger ==> n in t.store.ledger && t.store.ledger[n] == s.store.ledger[n])
  {
    if events != [] {
      RunForgetsNothing(s, events[..|events| - 1], cal);
      StepForgetsNothing(Run(s, events[..|events| - 1], cal), events[|events| - 1], cal);
    }
  }

  /** Every stored summary of a day no deletion has reached is that of its stored readings. */
  lemma SummariesMatchTheirReadings(cal: Calendar, keys: set<string>, now: Time, events: seq<Event>, k: string, d: int)
    ensures var s := Run(Start(cal, keys, now), events, cal);
            k in s.store.channels && d in s.store.channels[k].summaries ==>
              var day := DayReadings(s.store.channels[k].readings, cal, d);
              d < cal.dayOf(s.now)
              && (Whole(s.purged, k, cal.dayStart(d)) ==>
                   day != [] && s.store.channels[k].summaries[d] == BuildSummary(day))
  {
    StartIsSafe(cal, keys, now);
    RunKeeps(Start(cal, keys, now), events, cal);
    var s := Run(Start(cal, keys, now), events, cal);
    if k in s.store.channels && d in s.store.channels[k].summaries && Whole(s.purged, k, cal.dayStart(d)) {
      assert Agrees(s.store.channels[k], cal, cal.dayOf(s.now), s.purged, k);
      assert IsSummaryOf(s.store.channels[k].summaries[d], s.store.channels[k].readings, cal, d);
    }
  }

  /** The readings of a local day, by their dates, in order. */
  ghost predicate IsDayOf(day: seq<Measurement>, readings: seq<Measurement>, cal: Calendar, d: int) {
    && (forall i, j :: 0 <= i < j < |day| ==> day[i].at < day[j].at)
    && forall r :: r in day <==> r in readings && cal.dayStart(d) <= r.at < cal.dayStart(d + 1)
  }

  /**
   In every run, a stored summary of a day no deletion has reached gives the
   number of that day's stored readings, their first and last dates, and for each
   metric the bounds and the mean of its numbers.
   */
  lemma StoredSummaryIsTrue(cal: Calendar, keys: set<string>, now: Time, events: seq<Event>, s: Sys, k: string, d: int)
    returns (day: seq<Measurement>)
    requires s == Run(Start(cal, keys, now), events, cal)
    requires k in s.store.channels && d in s.store.channels[k].summaries && Whole(s.purged, k, cal.dayStart(d))
    ensures IsDayOf(day, s.store.channels[k].readings, cal, d) && P.Means(s.store.channels[k].summaries[d], day)
  {
    var readings := s.store.channels[k].readings;
    day := DayReadings(readings, cal, d);
    SummariesMatchTheirReadings(cal, keys, now, events, k, d);
    StartIsSafe(cal, keys, now);
    RunKeeps(Start(cal, keys, now), events, cal);
    DayIs(readings, cal, d);
    P.SummaryMeans(day);
  }

  lemma DayIs(readings: seq<Measurement>, cal: Calendar, d: int)
    requires Ordered(readings)
    ensures IsDayOf(DayReadings(readings, cal, d), readings, cal, d) && Ordered(DayReadings(readings, cal, d))
  {
    BetweenIs(readings, cal.dayStart(d), cal.dayStart(d + 1));
    OrderedPairs(DayReadings(readings, cal, d));
  }

  /**
   A walk that reached the day it began on leaves no earlier day with readings
   unsummarised, whatever was stored, imported and deleted while it went on.
   */
  lemma WalkLeavesNoGap(cal: Calendar, keys: set<string>, now: Time, events: seq<Event>, d: int)
    ensures var s := Run(Start(cal, keys, now), events, cal);
            s.walk.Some? && s.walk.value.today <= s.walk.value.next ==>
              && s.walk.value.key in s.store.channels
              && !Unsummarised(s.store.channels[s.walk.value.key], cal, s.walk.value.today, d)
  {
    StartIsSafe(cal, keys, now);
    RunKeeps(Start(cal, keys, now), events, cal);
  }

  /** The daily check keeps agreement and leaves no past day with readings unsummarised. */
  lemma DayCheckIsComplete(ch: Channel, cal: Calendar, now: Time, purged: map<string, Time>, k: string, after: Channel)
    requires Agrees(ch, cal, cal.dayOf(now), purged, k) && Whole(purged, k, now - MEASUREMENT_RETENTION)
    requires SummarisedThenPurged(ch, cal, cal.dayOf(now), now, after)
    ensures Agrees(after, cal, cal.dayOf(now), purged[k := now - MEASUREMENT_RETENTION], k)
    ensures forall d :: !Unsummarised(after, cal, cal.dayOf(now), d)
  {
    var summaries :| Summarised(ch, cal, cal.dayOf(now), summaries)
      && after == Channel(Purge(ch.readings, now - MEASUREMENT_RETENTION), RecentSummaries(summaries, cal.dayOf(now)));
    var full := ch.(summaries := summaries);
    SummarisedAgrees(ch, cal, cal.dayOf(now), purged, k, full);
    RetainAgrees(full, cal, now, purged, k);
    forall d
      ensures !Unsummarised(after, cal, cal.dayOf(now), d)
    {
      SurvivingDayIsSummarised(full, cal, now, d);
    }
  }

  lemma SummarisedAgrees(ch: Channel, cal: Calendar, today: int, purged: map<string, Time>, k: string, full: Channel)
    requires Agrees(ch, cal, today, purged, k)
    requires full.readings == ch.readings && Summarised(ch, cal, today, full.summaries)
    ensures Agrees(full, cal, today, purged, k)
    ensures forall d :: !Unsummarised(full, cal, today, d)
  {
    forall d | d in full.summaries
      ensures d < today
      ensures Whole(purged, k, cal.dayStart(d)) ==> IsSummaryOf(full.summaries[d], full.readings, cal, d)
    {
      if d in ch.summaries {
        assert full.summaries[d] == ch.summaries[d];
      }
    }
  }

  /**
   A live reading stored on a day other than today keeps agreement exactly when
   its day has no summary yet: nothing rebuilds the summary of that day.
   */
  lemma LateLiveReadingAgreesIff(
    ch: Channel, m: Measurement, cal: Calendar, today: int, purged: map<string, Time>, k: string)
    requires Agrees(ch, cal, today, purged, k)
    requires Whole(purged, k, cal.dayStart(cal.dayOf(m.at))) && !Stored(ch.readings, m.at)
    ensures Agrees(WithLive(ch, m), cal, today, purged, k) <==> cal.dayOf(m.at) !in ch.summaries
  {
    var d0, after := cal.dayOf(m.at), WithLive(ch, m);
    InsertKeepsOrder(ch.readings, m);
    forall d | d != d0
      ensures DayReadings(after.readings, cal, d) == DayReadings(ch.readings, cal, d)
    {
      InsertTouchesItsDay(ch.readings, m, cal, d);
    }
    if d0 in ch.summaries {
      LateReadingChangesCount(ch.readings, m, cal);
      assert IsSummaryOf(ch.summaries[d0], ch.readings, cal, d0);
    }
  }

  lemma LateReadingChangesCount(readings: seq<Measurement>, m: Measurement, cal: Calendar)
    requires Ordered(readings) && !Stored(readings, m.at)
    ensures SummaryOf(Insert(readings, m), cal)(cal.dayOf(m.at)) != SummaryOf(readings, cal)(cal.dayOf(m.at))
  {
    var d := cal.dayOf(m.at);
    var day := DayReadings(readings, cal, d);
    DayReadingsAre(readings, cal, d);
    InsertTouchesItsDay(readings, m, cal, d);
    InsertAdds(day, m);
  }
}
