/** The other writers of the history system keep its invariant: live storage, summariser, retention, clock. */
module HistoryWriters {
  import opened Basics
  import opened DailySummary
  import opened History
  import opened HistoryStore
  import opened HistorySystem
  import opened HistoryImport

  // ---- the other writers ------------------------------------------------------

  lemma LiveAgrees(ch: Channel, m: Measurement, cal: Calendar, today: int, purged: map<string, Time>, k: string)
    requires Agrees(ch, cal, today, purged, k) && cal.dayOf(m.at) == today
    ensures Agrees(WithLive(ch, m), cal, today, purged, k) && SameOrMore(ch.readings, WithLive(ch, m).readings)
    ensures forall d :: d < today ==> DayReadings(WithLive(ch, m).readings, cal, d) == DayReadings(ch.readings, cal, d)
  {
    InsertAdds(ch.readings, m);
    InsertKeepsOrder(ch.readings, m);
    forall d | d < today
      ensures DayReadings(WithLive(ch, m).readings, cal, d) == DayReadings(ch.readings, cal, d)
    {
      InsertTouchesItsDay(ch.readings, m, cal, d);
    }
  }

  lemma LiveKeepsDraft(s: Sys, t: Sys, k: string, cal: Calendar)
    requires DraftIsCurrent(s, cal) && k in s.store.channels && k in t.store.channels
    requires t == With(s, k, t.store.channels[k]) && t.store.channels[k].summaries == s.store.channels[k].summaries
    requires forall d :: d < cal.dayOf(s.now) ==>
               DayReadings(t.store.channels[k].readings, cal, d) == DayReadings(s.store.channels[k].readings, cal, d)
    ensures DraftIsCurrent(t, cal)
  {
  }

  lemma LiveKeeps(s: Sys, k: string, m: Measurement, cal: Calendar)
    requires Inv(s, cal) && k in s.store.channels && cal.dayOf(m.at) == cal.dayOf(s.now)
    ensures Inv(With(s, k, WithLive(s.store.channels[k], m)), cal)
  {
    var t := With(s, k, WithLive(s.store.channels[k], m));
    LiveAgrees(s.store.channels[k], m, cal, cal.dayOf(s.now), s.purged, k);
    LiveKeepsDraft(s, t, k, cal);
    OthersStillAgree(s, t, k, cal);
    StillBacked(s.store, t.store.channels, s.purged);
    RecoveryIgnoresChannels(s, t);
  }

  lemma RecoveryIgnoresChannels(s: Sys, t: Sys)
    requires Recovered(s) && Backed(t.store, t.purged)
    requires t == s.(store := Store(s.store.ledger, t.store.channels),
               purged := t.purged, walk := t.walk, draft := t.draft)
    ensures Recovered(t)
  {
  }

  /** A step on one channel keeps the other channels' agreement. */
  lemma OthersStillAgree(s: Sys, t: Sys, k: string, cal: Calendar)
    requires AllAgree(s, cal) && k in s.store.channels
    requires t.now == s.now && k in t.store.channels && t.store.channels == s.store.channels[k := t.store.channels[k]]
    requires forall q :: q != k ==> (q in t.purged <==> q in s.purged)
    requires forall q :: q != k && q in s.purged ==> t.purged[q] == s.purged[q]
    requires Agrees(t.store.channels[k], cal, cal.dayOf(s.now), t.purged, k)
    ensures AllAgree(t, cal)
  {
    forall q | q in t.store.channels
      ensures Agrees(t.store.channels[q], cal, cal.dayOf(s.now), t.purged, q)
    {
      if q != k {
        assert forall time :: Whole(t.purged, q, time) <==> Whole(s.purged, q, time);
        SameAgreement(s.store.channels[q], cal, cal.dayOf(s.now), s.purged, t.purged, q);
      }
    }
  }

  lemma SameAgreement(
    ch: Channel, cal: Calendar, today: int, purged: map<string, Time>, purged': map<string, Time>, k: string)
    requires Agrees(ch, cal, today, purged, k)
    requires forall time :: Whole(purged', k, time) ==> Whole(purged, k, time)
    ensures Agrees(ch, cal, today, purged', k)
  {
  }

  lemma DraftAgrees(ch: Channel, draft: Draft, cal: Calendar, today: int, purged: map<string, Time>)
    requires Agrees(ch, cal, today, purged, draft.key) && draft.rows != [] && draft.day < today
    requires Whole(purged, draft.key, cal.dayStart(draft.day)) ==>
               draft.rows == DayReadings(ch.readings, cal, draft.day)
    ensures Agrees(ch.(summaries := ch.summaries[draft.day := BuildSummary(draft.rows)]), cal, today, purged, draft.key)
  {
    var after := ch.(summaries := ch.summaries[draft.day := BuildSummary(draft.rows)]);
    forall d | d in after.summaries && Whole(purged, draft.key, cal.dayStart(d))
      ensures IsSummaryOf(after.summaries[d], after.readings, cal, d)
    {
      if d != draft.day {
        assert d in ch.summaries;
      }
    }
  }

  lemma StoreDayKeeps(s: Sys, cal: Calendar)
    requires Inv(s, cal) && s.draft.Some?
    ensures Inv(AfterStoreDay(s), cal)
  {
    var t, draft := AfterStoreDay(s), s.draft.value;
    StillBacked(s.store, t.store.channels, s.purged);
    RecoveryIgnoresChannels(s, t);
    if t.store != s.store {
      DraftAgrees(s.store.channels[draft.key], draft, cal, cal.dayOf(s.now), s.purged);
      OthersStillAgree(s, t, draft.key, cal);
    }
  }

  lemma VisitKeeps(s: Sys, cal: Calendar)
    requires Inv(s, cal) && WalkIsSound(s, cal) && MayVisit(s)
    ensures Inv(AfterVisit(s, cal), cal)
  {
    RecoveryIgnoresChannels(s, AfterVisit(s, cal));
  }

  lemma RetainedDay(ch: Channel, cal: Calendar, now: Time, d: int)
    requires now - MEASUREMENT_RETENTION <= cal.dayStart(d)
    ensures DayReadings(Retained(ch, cal, now).readings, cal, d) == DayReadings(ch.readings, cal, d)
    ensures SummaryOf(Retained(ch, cal, now).readings, cal)(d) == SummaryOf(ch.readings, cal)(d)
    ensures d in ch.summaries ==> d in Retained(ch, cal, now).summaries
  {
    PurgeBetween(ch.readings, now - MEASUREMENT_RETENTION, cal.dayStart(d), cal.dayStart(d + 1));
    SummariesOutliveReadings(cal, now, d);
  }

  lemma RetainedSummary(ch: Channel, cal: Calendar, now: Time, d: int)
    requires d in Retained(ch, cal, now).summaries && now - MEASUREMENT_RETENTION <= cal.dayStart(d)
    requires IsSummaryOf(ch.summaries[d], ch.readings, cal, d)
    ensures IsSummaryOf(Retained(ch, cal, now).summaries[d], Retained(ch, cal, now).readings, cal, d)
  {
    RetainedDay(ch, cal, now, d);
  }

  lemma RetainAgrees(ch: Channel, cal: Calendar, now: Time, purged: map<string, Time>, k: string)
    requires Agrees(ch, cal, cal.dayOf(now), purged, k) && Whole(purged, k, now - MEASUREMENT_RETENTION)
    ensures Agrees(Retained(ch, cal, now), cal, cal.dayOf(now), purged[k := now - MEASUREMENT_RETENTION], k)
  {
    PurgeIs(ch.readings, now - MEASUREMENT_RETENTION);
    forall d | d in Retained(ch, cal, now).summaries && now - MEASUREMENT_RETENTION <= cal.dayStart(d)
      ensures IsSummaryOf(Retained(ch, cal, now).summaries[d], Retained(ch, cal, now).readings, cal, d)
    {
      assert Whole(purged, k, cal.dayStart(d));
      RetainedSummary(ch, cal, now, d);
    }
  }

  lemma RetainKeepsDraft(s: Sys, t: Sys, k: string, cal: Calendar)
    requires DraftIsCurrent(s, cal) && k in s.store.channels && Whole(s.purged, k, s.now - MEASUREMENT_RETENTION)
    requires t == AfterRetain(s, k, cal)
    ensures DraftIsCurrent(t, cal)
  {
    if s.draft.Some? && s.draft.value.key == k && s.now - MEASUREMENT_RETENTION <= cal.dayStart(s.draft.value.day) {
      RetainedDay(s.store.channels[k], cal, s.now, s.draft.value.day);
    }
  }

  lemma RetainBacks(s: Sys, k: string, cal: Calendar)
    requires Backed(s.store, s.purged) && k in s.store.channels && Ordered(s.store.channels[k].readings)
    requires Whole(s.purged, k, s.now - MEASUREMENT_RETENTION)
    ensures var t := AfterRetain(s, k, cal); Backed(t.store, t.purged)
  {
    var t := AfterRetain(s, k, cal);
    PurgeIs(s.store.channels[k].readings, s.now - MEASUREMENT_RETENTION);
    forall n, q | n in s.store.ledger && Measures(s.store.ledger[n], q)
      ensures q in t.store.channels
      ensures Whole(t.purged, q, CapturedAt(s.store.ledger[n])) ==>
                Stored(t.store.channels[q].readings, CapturedAt(s.store.ledger[n]))
    {
      assert HasReadings(s.store.ledger[n], s.store, s.purged);
    }
  }

  lemma RetainKeeps(s: Sys, k: string, cal: Calendar)
    requires Inv(s, cal) && k in s.store.channels
    ensures Inv(AfterRetain(s, k, cal), cal)
  {
    var t := AfterRetain(s, k, cal);
    RetainAgrees(s.store.channels[k], cal, s.now, s.purged, k);
    RetainKeepsDraft(s, t, k, cal);
    RetainBacks(s, k, cal);
    RecoveryIgnoresChannels(s, t);
    OthersStillAgree(s, t, k, cal);
  }

  lemma TickKeeps(s: Sys, later: Time, cal: Calendar)
    requires Inv(s, cal) && s.now <= later
    ensures Inv(s.(now := later), cal)
  {
    LaterIsNoEarlierDay(cal, s.now, later);
    RecoveryIgnoresClock(s, later);
  }

  lemma RecoveryIgnoresClock(s: Sys, later: Time)
    requires Recovered(s)
    ensures Recovered(s.(now := later))
  {
  }
}
