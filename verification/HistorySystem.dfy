/**
 Whole runs of history recovery beside live storage, summarising and
 retention: a device that buffers records until they are acknowledged, a
 worker that fetches, persists and acknowledges pages and may stop between any
 two of those, acknowledgements that arrive late, repeatedly or never.
 */
module HistorySystem {
  import opened Basics
  import opened DailySummary
  import opened History
  import opened HistoryStore

  const HISTORY_PAGE_LIMIT := 2

  datatype Worker =
    | Idle
    | Asked(cursor: int)
    | Holding(cursor: int, page: seq<Record>)
    | Persisted(cursor: int, through: int)
    | Acking(cursor: int, through: int)

  /** A day's rows as read by the summariser, before its insert commits. */
  datatype Draft = Draft(key: string, day: int, rows: seq<Measurement>)

  /** The summariser's walk over one channel: the day it began, and the next day it looks at. */
  datatype Walk = Walk(key: string, today: int, next: int)

  datatype Sys = Sys(
    store: Store, now: Time, purged: map<string, Time>, walk: Option<Walk>, draft: Option<Draft>,
    appended: seq<Record>, acked: int, inFlight: set<int>, worker: Worker)

  datatype Event =
    | Append(record: Record)
    | StartRun(cursor: int)
    | Answer
    | Persist
    | SendAck
    | Deliver(through: int)
    | Confirm
    | Abandon
    | Live(key: string, reading: Measurement)
    | StartWalk(key: string)
    | VisitDay
    | StoreDay
    | AbortWalk
    | Retain(key: string)
    | Tick(later: Time)

  function Highest(appended: seq<Record>): int {
    if appended == [] then 0 else appended[|appended| - 1].sequence
  }

  /** What the device still buffers and has not shown yet, oldest first. */
  function Unseen(appended: seq<Record>, after: int): seq<Record> {
    if appended == [] then []
    else if appended[0].sequence <= after then Unseen(appended[1..], after)
    else appended
  }

  /** The device fills pages of two. */
  function NextPage(appended: seq<Record>, after: int): seq<Record> {
    var unseen := Unseen(appended, after);
    if |unseen| <= HISTORY_PAGE_LIMIT then unseen else unseen[..HISTORY_PAGE_LIMIT]
  }

  function Max(a: int, b: int): int { if a < b then b else a }

  function Start(cal: Calendar, keys: set<string>, now: Time): Sys {
    Sys(Store(map[], map k | k in keys :: Channel([], map[])), now, map[], None, None, [], 0, {}, Idle)
  }

  function Retained(ch: Channel, cal: Calendar, now: Time): Channel {
    Channel(Purge(ch.readings, now - MEASUREMENT_RETENTION), RecentSummaries(ch.summaries, cal.dayOf(now)))
  }

  /** One step; an event that is not possible leaves everything as it was. */
  function Apply(s: Sys, e: Event, cal: Calendar): Sys {
    match e
    case Append(r) => Appended(s, r)
    case StartRun(cursor) => if 0 <= cursor <= s.acked then s.(worker := Asked(cursor)) else s
    case Answer => if s.worker.Asked? then Answered(s) else s
    case Persist => if s.worker.Holding? then AfterPersist(s, cal) else s
    case SendAck =>
      if s.worker.Persisted?
      then s.(worker := Acking(s.worker.cursor, s.worker.through), inFlight := s.inFlight + {s.worker.through}) else s
    case Deliver(n) => if n in s.inFlight then s.(acked := Max(s.acked, n)) else s
    case Confirm => if s.worker.Acking? && s.worker.through <= s.acked then s.(worker := Asked(s.worker.through)) else s
    case Abandon => s.(worker := Idle)
    case Live(k, m) =>
      if k in s.store.channels && cal.dayOf(m.at) == cal.dayOf(s.now)
      then With(s, k, WithLive(s.store.channels[k], m)) else s
    case StartWalk(k) => if k in s.store.channels then WalkStarted(s, k, cal) else s
    case VisitDay => if MayVisit(s) then AfterVisit(s, cal) else s
    case StoreDay => if s.draft.Some? then AfterStoreDay(s) else s
    case AbortWalk => s.(walk := None, draft := None)
    case Retain(k) => if k in s.store.channels then AfterRetain(s, k, cal) else s
    case Tick(later) => if s.now <= later then s.(now := later) else s
  }

  function With(s: Sys, k: string, ch: Channel): Sys { s.(store := s.store.(channels := s.store.channels[k := ch])) }

  function Appended(s: Sys, r: Record): Sys {
    if Highest(s.appended) < r.sequence then s.(appended := s.appended + [r]) else s
  }

  function WithLive(ch: Channel, m: Measurement): Channel { ch.(readings := Insert(ch.readings, m)) }

  function AfterRetain(s: Sys, k: string, cal: Calendar): Sys
    requires k in s.store.channels
  {
    With(s, k, Retained(s.store.channels[k], cal, s.now)).(purged := s.purged[k := s.now - MEASUREMENT_RETENTION])
  }

  function Answered(s: Sys): Sys
    requires s.worker.Asked?
  {
    var page := NextPage(s.appended, Max(s.worker.cursor, s.acked));
    s.(worker := if page == [] then Idle else Holding(s.worker.cursor, page))
  }

  function AfterPersist(s: Sys, cal: Calendar): Sys
    requires s.worker.Holding?
  {
    match PersistPage(s.store, s.worker.page, cal, cal.dayOf(s.now))
    case None => s.(worker := Idle)
    case Some(after) =>
      s.(store := after, worker := Persisted(s.worker.cursor, Highest(s.worker.page)))
  }

  /** From the day of the oldest reading on; without readings there is nothing to walk over. */
  function WalkStarted(s: Sys, k: string, cal: Calendar): Sys
    requires k in s.store.channels
  {
    var readings, today := s.store.channels[k].readings, cal.dayOf(s.now);
    s.(draft := None, walk := Some(Walk(k, today, if readings == [] then today else cal.dayOf(readings[0].at))))
  }

  predicate MayVisit(s: Sys) {
    s.draft.None? && s.walk.Some? && s.walk.value.next < s.walk.value.today && s.walk.value.key in s.store.channels
  }

  /** A day with a summary or without readings is passed by; the rows of any other are read. */
  function AfterVisit(s: Sys, cal: Calendar): Sys
    requires MayVisit(s)
  {
    var walk := s.walk.value;
    var ch, rows := s.store.channels[walk.key], DayReadings(s.store.channels[walk.key].readings, cal, walk.next);
    if walk.next in ch.summaries || rows == [] then s.(walk := Some(walk.(next := walk.next + 1)))
    else s.(draft := Some(Draft(walk.key, walk.next, rows)))
  }

  /** The insert of a drafted summary; a summary stored meanwhile makes it fail and ends the walk. */
  function AfterStoreDay(s: Sys): Sys
    requires s.draft.Some?
  {
    var draft := s.draft.value;
    if draft.key !in s.store.channels || draft.rows == [] then s.(walk := None, draft := None)
    else
      var ch := s.store.channels[draft.key];
      if draft.day in ch.summaries then s.(walk := None, draft := None)
      else
        var walk := if s.walk.Some? then Some(s.walk.value.(next := draft.day + 1)) else None;
        var summaries := ch.summaries[draft.day := BuildSummary(draft.rows)];
        With(s.(draft := None, walk := walk), draft.key, ch.(summaries := summaries))
  }

  function Run(s: Sys, events: seq<Event>, cal: Calendar): Sys {
    if events == [] then s else Apply(Run(s, events[..|events| - 1], cal), events[|events| - 1], cal)
  }

  // ---- the invariant -------------------------------------------------------

  /** Still whole: no reading of this channel from t on has been deleted. */
  predicate Whole(purged: map<string, Time>, k: string, t: Time) { k in purged ==> purged[k] <= t }

  ghost predicate IsSummaryOf(summary: Summary, readings: seq<Measurement>, cal: Calendar, d: int) {
    SummaryOf(readings, cal)(d) == Some(summary)
  }

  /** Every summary is of a past day, and a whole day's one is that of its stored readings. */
  ghost predicate Agrees(ch: Channel, cal: Calendar, today: int, purged: map<string, Time>, k: string) {
    && Ordered(ch.readings)
    && forall d :: d in ch.summaries ==>
         d < today && (Whole(purged, k, cal.dayStart(d)) ==> IsSummaryOf(ch.summaries[d], ch.readings, cal, d))
  }

  ghost predicate AllAgree(s: Sys, cal: Calendar) {
    forall k :: k in s.store.channels ==> Agrees(s.store.channels[k], cal, cal.dayOf(s.now), s.purged, k)
  }

  /** A draft holds its day's readings, unless the day was summarised or purged meanwhile. */
  ghost predicate DraftIsCurrent(s: Sys, cal: Calendar) {
    s.draft.None? ||
    var draft := s.draft.value;
    && draft.key in s.store.channels && draft.day < cal.dayOf(s.now)
    && (draft.day in s.store.channels[draft.key].summaries
        || !Whole(s.purged, draft.key, cal.dayStart(draft.day))
        || draft.rows == DayReadings(s.store.channels[draft.key].readings, cal, draft.day))
  }

  ghost predicate InLedger(r: Record, store: Store) { r.sequence in store.ledger && store.ledger[r.sequence] == r }

  ghost predicate HasReadings(r: Record, store: Store, purged: map<string, Time>) {
    forall k :: Measures(r, k) ==>
      && k in store.channels
      && (Whole(purged, k, CapturedAt(r)) ==> Stored(store.channels[k].readings, CapturedAt(r)))
  }

  ghost predicate Backed(store: Store, purged: map<string, Time>) {
    forall n :: n in store.ledger ==> HasReadings(store.ledger[n], store, purged)
  }

  ghost predicate Ascending(records: seq<Record>) {
    forall i, j :: 0 <= i < j < |records| ==> records[i].sequence < records[j].sequence
  }

  /** Every record up to n is in the ledger. */
  ghost predicate SafeThrough(s: Sys, n: int) {
    n <= Max(0, Highest(s.appended)) && forall r :: r in s.appended && r.sequence <= n ==> InLedger(r, s.store)
  }

  ghost predicate WorkerIsSafe(s: Sys) {
    match s.worker
    case Idle => true
    case Asked(cursor) => SafeThrough(s, cursor)
    case Holding(cursor, page) =>
      && page != [] && Highest(page) <= Highest(s.appended)
      && (forall r :: r in page ==> r in s.appended)
      && forall r :: r in s.appended && r.sequence <= Highest(page) ==> r in page || InLedger(r, s.store)
    case Persisted(cursor, through) => SafeThrough(s, through)
    case Acking(cursor, through) => SafeThrough(s, through)
  }

  ghost predicate PurgedInThePast(s: Sys) {
    forall k :: k in s.purged ==> s.purged[k] <= s.now - MEASUREMENT_RETENTION
  }

  ghost predicate LedgerIsOfTheDevice(s: Sys) {
    forall n :: n in s.store.ledger ==> s.store.ledger[n] in s.appended && s.store.ledger[n].sequence == n
  }

  ghost predicate Recovered(s: Sys) {
    && Ascending(s.appended) && (forall r :: r in s.appended ==> 1 <= r.sequence)
    && LedgerIsOfTheDevice(s)
    && Backed(s.store, s.purged)
    && SafeThrough(s, s.acked)
    && (forall n :: n in s.inFlight ==> SafeThrough(s, n))
    && WorkerIsSafe(s)
  }

  ghost predicate Inv(s: Sys, cal: Calendar) {
    Recovered(s) && PurgedInThePast(s) && AllAgree(s, cal) && DraftIsCurrent(s, cal)
  }

  /** No day the walk has passed lacks a summary it should have had when the walk began. */
  ghost predicate Covered(ch: Channel, cal: Calendar, today: int, next: int) {
    forall d :: d < next ==> !Unsummarised(ch, cal, today, d)
  }

  ghost predicate WalkIsSound(s: Sys, cal: Calendar) {
    && (s.walk.Some? ==>
          var walk := s.walk.value;
          && walk.key in s.store.channels && walk.today <= cal.dayOf(s.now)
          && Covered(s.store.channels[walk.key], cal, walk.today, walk.next))
    && (s.draft.Some? ==>
          && s.walk.Some? && s.walk.value.key == s.draft.value.key
          && s.walk.value.next == s.draft.value.day < s.walk.value.today
          && s.draft.value.rows != [])
  }

  // ---- protocol steps ------------------------------------------------------

  lemma {:induction false} UnseenIs(appended: seq<Record>, after: int)
    requires Ascending(appended)
    ensures Ascending(Unseen(appended, after))
    ensures forall r :: r in Unseen(appended, after) <==> r in appended && after < r.sequence
  {
    if appended != [] {
      var first, rest := appended[0], appended[1..];
      assert forall r :: r in appended <==> r == first || r in rest;
      if first.sequence <= after {
        UnseenIs(rest, after);
      } else {
        assert forall r :: r in rest ==> first.sequence < r.sequence;
      }
    }
  }

  lemma AppendKeepsSafety(s: Sys, r: Record, n: int)
    requires Ascending(s.appended) && Highest(s.appended) < r.sequence && 1 <= r.sequence && SafeThrough(s, n)
    ensures SafeThrough(Appended(s, r), n)
  {
    var after := Appended(s, r);
    assert forall q :: q in after.appended <==> q in s.appended || q == r;
  }

  lemma AppendKeepsWorker(s: Sys, r: Record)
    requires Ascending(s.appended) && Highest(s.appended) < r.sequence && 1 <= r.sequence && WorkerIsSafe(s)
    ensures WorkerIsSafe(Appended(s, r))
  {
    var after := Appended(s, r);
    match s.worker {
      case Idle =>
      case Asked(cursor) => AppendKeepsSafety(s, r, cursor);
      case Holding(cursor, page) => assert forall q :: q in after.appended <==> q in s.appended || q == r;
      case Persisted(cursor, through) => AppendKeepsSafety(s, r, through);
      case Acking(cursor, through) => AppendKeepsSafety(s, r, through);
    }
  }

  lemma AppendKeeps(s: Sys, r: Record, cal: Calendar)
    requires Recovered(s)
    ensures Recovered(Appended(s, r))
  {
    if Highest(s.appended) < r.sequence {
      var after := Appended(s, r);
      assert forall q :: q in after.appended <==> q in s.appended || q == r;
      AllUpToHighest(s.appended);
      AppendKeepsWorker(s, r);
      AppendKeepsSafety(s, r, s.acked);
      forall n | n in s.inFlight
        ensures SafeThrough(after, n)
      {
        AppendKeepsSafety(s, r, n);
      }
    }
  }

  lemma AllUpToHighest(appended: seq<Record>)
    requires Ascending(appended)
    ensures forall r :: r in appended ==> r.sequence <= Highest(appended)
  {
  }

  /** A page leaves nothing out between where it starts and its last record. */
  lemma PageIsGapless(appended: seq<Record>, after: int)
    requires Ascending(appended)
    ensures var page := NextPage(appended, after);
            page != [] ==>
              && (forall r :: r in page ==> r in appended && after < r.sequence <= Highest(page) <= Highest(appended))
              && (forall r :: r in appended && after < r.sequence <= Highest(page) ==> r in page)
  {
    UnseenIs(appended, after);
    var page := NextPage(appended, after);
    if page != [] {
      PrefixIsGapless(Unseen(appended, after), |page|);
      AllUpToHighest(appended);
      assert page[|page| - 1] in appended;
    }
  }

  lemma PrefixIsGapless(unseen: seq<Record>, n: nat)
    requires Ascending(unseen) && 0 < n <= |unseen|
    ensures forall r :: r in unseen[..n] ==> r in unseen && r.sequence <= unseen[n - 1].sequence
    ensures forall r :: r in unseen && r.sequence <= unseen[n - 1].sequence ==> r in unseen[..n]
  {
  }

  lemma AnswerKeeps(s: Sys, cal: Calendar)
    requires Recovered(s) && s.worker.Asked?
    ensures Recovered(Answered(s))
  {
    PageIsGapless(s.appended, Max(s.worker.cursor, s.acked));
  }
}
