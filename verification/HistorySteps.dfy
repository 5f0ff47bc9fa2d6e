/** Every step of the history system keeps its invariant, the summariser's walk included. */
module HistorySteps {
  import opened Basics
  import opened DailySummary
  import opened History
  import opened HistoryStore
  import opened HistorySystem
  import opened HistoryImport
  import opened HistoryWriters

  lemma SurvivingDayIsSummarised(full: Channel, cal: Calendar, now: Time, d: int)
    requires Ordered(full.readings) && !Unsummarised(full, cal, cal.dayOf(now), d)
    ensures !Unsummarised(Retained(full, cal, now), cal, cal.dayOf(now), d)
  {
    var kept := Purge(full.readings, now - MEASUREMENT_RETENTION);
    PurgeIs(full.readings, now - MEASUREMENT_RETENTION);
    DayReadingsAre(kept, cal, d);
    DayReadingsAre(full.readings, cal, d);
    if DayReadings(kept, cal, d) != [] {
      var r := DayReadings(kept, cal, d)[0];
      assert r in DayReadings(kept, cal, d);
      assert r in DayReadings(full.readings, cal, d);
      DayIsItsBounds(cal, r.at, d);
      RecentEnough(cal, now, d, r.at);
    }
  }

  // ---- the walk among the other writers -----------------------------------------

  /** What the channel of a walk may go through without a passed day losing its summary. */
  ghost predicate KeepsCover(ch: Channel, after: Channel, cal: Calendar, today: int) {
    forall d :: !Unsummarised(ch, cal, today, d) ==> !Unsummarised(after, cal, today, d)
  }

  lemma WalkGoesOn(s: Sys, t: Sys, cal: Calendar)
    requires WalkIsSound(s, cal) && t.walk == s.walk && t.draft == s.draft && cal.dayOf(s.now) <= cal.dayOf(t.now)
    requires s.walk.Some? ==>
               && s.walk.value.key in t.store.channels
               && KeepsCover(s.store.channels[s.walk.value.key],
                             t.store.channels[s.walk.value.key], cal, s.walk.value.today)
    ensures WalkIsSound(t, cal)
  {
  }

  lemma SameDaysKeepCover(ch: Channel, after: Channel, cal: Calendar, today: int)
    requires forall d :: d in ch.summaries ==> d in after.summaries
    requires forall d :: d < today && d !in after.summaries ==>
               DayReadings(after.readings, cal, d) == DayReadings(ch.readings, cal, d)
    ensures KeepsCover(ch, after, cal, today)
  {
  }

  lemma PersistKeepsWalk(s: Sys, cal: Calendar)
    requires Inv(s, cal) && WalkIsSound(s, cal) && s.worker.Holding?
    ensures WalkIsSound(AfterPersist(s, cal), cal)
  {
    var t := AfterPersist(s, cal);
    if s.walk.Some? && t.worker.Persisted? {
      var k := s.walk.value.key;
      PersistedChannel(s, t.store, s.worker.page, cal, k);
      SameDaysKeepCover(s.store.channels[k], t.store.channels[k], cal, s.walk.value.today);
    }
    WalkGoesOn(s, t, cal);
  }

  lemma LiveKeepsWalk(s: Sys, k: string, m: Measurement, cal: Calendar)
    requires Inv(s, cal) && WalkIsSound(s, cal) && k in s.store.channels && cal.dayOf(m.at) == cal.dayOf(s.now)
    ensures WalkIsSound(With(s, k, WithLive(s.store.channels[k], m)), cal)
  {
    var t := With(s, k, WithLive(s.store.channels[k], m));
    LiveAgrees(s.store.channels[k], m, cal, cal.dayOf(s.now), s.purged, k);
    if s.walk.Some? && s.walk.value.key == k {
      SameDaysKeepCover(s.store.channels[k], t.store.channels[k], cal, s.walk.value.today);
    }
    WalkGoesOn(s, t, cal);
  }

  lemma RetainKeepsWalk(s: Sys, k: string, cal: Calendar)
    requires Inv(s, cal) && WalkIsSound(s, cal) && k in s.store.channels
    ensures WalkIsSound(AfterRetain(s, k, cal), cal)
  {
    var t := AfterRetain(s, k, cal);
    if s.walk.Some? && s.walk.value.key == k {
      forall d | !Unsummarised(s.store.channels[k], cal, s.walk.value.today, d)
        ensures !Unsummarised(t.store.channels[k], cal, s.walk.value.today, d)
      {
        if d < s.walk.value.today {
          SurvivingDayIsSummarised(s.store.channels[k], cal, s.now, d);
        }
      }
    }
    WalkGoesOn(s, t, cal);
  }

  lemma StartWalkIsSound(s: Sys, k: string, cal: Calendar)
    requires Inv(s, cal) && k in s.store.channels
    ensures WalkIsSound(WalkStarted(s, k, cal), cal)
  {
    var readings := s.store.channels[k].readings;
    if readings != [] {
      NothingBeforeOldest(readings, cal);
    }
  }

  lemma VisitKeepsWalk(s: Sys, cal: Calendar)
    requires WalkIsSound(s, cal) && MayVisit(s)
    ensures WalkIsSound(AfterVisit(s, cal), cal)
  {
  }

  lemma StoreDayKeepsWalk(s: Sys, cal: Calendar)
    requires WalkIsSound(s, cal) && s.draft.Some?
    ensures WalkIsSound(AfterStoreDay(s), cal)
  {
    var t, walk := AfterStoreDay(s), s.walk.value;
    if t.walk.Some? {
      SameDaysKeepCover(s.store.channels[walk.key], t.store.channels[walk.key], cal, walk.today);
    }
  }

  // ---- every event ------------------------------------------------------------

  lemma WalkKeeps(s: Sys, e: Event, cal: Calendar)
    requires Inv(s, cal) && (e.StartWalk? || e.AbortWalk?)
    ensures Inv(Apply(s, e, cal), cal)
  {
    RecoveryIgnoresChannels(s, Apply(s, e, cal));
  }

  lemma AckKeeps(s: Sys, e: Event, cal: Calendar)
    requires Recovered(s) && (e.StartRun? || e.SendAck? || e.Deliver? || e.Confirm? || e.Abandon?)
    ensures Recovered(Apply(s, e, cal))
  {
  }

  lemma ProtocolStepKeeps(s: Sys, e: Event, cal: Calendar)
    requires Inv(s, cal)
    requires e.Append? || e.StartRun? || e.Answer? || e.SendAck? || e.Deliver? || e.Confirm? || e.Abandon?
    ensures Inv(Apply(s, e, cal), cal)
  {
    match e {
      case Append(r) => AppendKeeps(s, r, cal);
      case Answer => if s.worker.Asked? { AnswerKeeps(s, cal); }
      case _ => AckKeeps(s, e, cal);
    }
  }

  lemma StepKeeps(s: Sys, e: Event, cal: Calendar)
    requires Inv(s, cal) && WalkIsSound(s, cal)
    ensures Inv(Apply(s, e, cal), cal)
  {
    match e {
      case Persist => if s.worker.Holding? { PersistKeeps(s, cal); }
      case Live(k, m) => if k in s.store.channels && cal.dayOf(m.at) == cal.dayOf(s.now) { LiveKeeps(s, k, m, cal); }
      case StartWalk(k) => WalkKeeps(s, e, cal);
      case VisitDay => if MayVisit(s) { VisitKeeps(s, cal); }
      case AbortWalk => WalkKeeps(s, e, cal);
      case StoreDay => if s.draft.Some? { StoreDayKeeps(s, cal); }
      case Retain(k) => if k in s.store.channels { RetainKeeps(s, k, cal); }
      case Tick(later) => if s.now <= later { TickKeeps(s, later, cal); }
      case _ => ProtocolStepKeeps(s, e, cal);
    }
  }

  lemma OthersKeepWalk(s: Sys, e: Event, cal: Calendar)
    requires WalkIsSound(s, cal)
    requires e.StartRun? || e.Answer? || e.SendAck? || e.Deliver? || e.Confirm? || e.Abandon? || e.AbortWalk?
    ensures WalkIsSound(Apply(s, e, cal), cal)
  {
  }

  lemma StepKeepsWalk(s: Sys, e: Event, cal: Calendar)
    requires Inv(s, cal) && WalkIsSound(s, cal)
    ensures WalkIsSound(Apply(s, e, cal), cal)
  {
    match e {
      case Append(r) => WalkGoesOn(s, Appended(s, r), cal);
      case Persist => if s.worker.Holding? { PersistKeepsWalk(s, cal); }
      case Live(k, m) =>
        if k in s.store.channels && cal.dayOf(m.at) == cal.dayOf(s.now) { LiveKeepsWalk(s, k, m, cal); }
      case StartWalk(k) => if k in s.store.channels { StartWalkIsSound(s, k, cal); }
      case VisitDay => if MayVisit(s) { VisitKeepsWalk(s, cal); }
      case StoreDay => if s.draft.Some? { StoreDayKeepsWalk(s, cal); }
      case Retain(k) => if k in s.store.channels { RetainKeepsWalk(s, k, cal); }
      case Tick(later) =>
        if s.now <= later {
          LaterIsNoEarlierDay(cal, s.now, later);
          WalkGoesOn(s, s.(now := later), cal);
        }
      case _ => OthersKeepWalk(s, e, cal);
    }
  }

  lemma {:induction false} RunKeeps(s: Sys, events: seq<Event>, cal: Calendar)
    requires Inv(s, cal) && WalkIsSound(s, cal)
    ensures Inv(Run(s, events, cal), cal) && WalkIsSound(Run(s, events, cal), cal)
  {
    if events != [] {
      RunKeeps(s, events[..|events| - 1], cal);
      StepKeeps(Run(s, events[..|events| - 1], cal), events[|events| - 1], cal);
      StepKeepsWalk(Run(s, events[..|events| - 1], cal), events[|events| - 1], cal);
    }
  }

  lemma StartIsSafe(cal: Calendar, keys: set<string>, now: Time)
    ensures Inv(Start(cal, keys, now), cal) && WalkIsSound(Start(cal, keys, now), cal)
  {
  }
}
