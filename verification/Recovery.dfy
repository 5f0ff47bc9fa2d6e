/**
 One recovery run: the worker asks the device for pages of its backlog, checks
 each reply, stores the page and acknowledges it, for a bounded number of pages.
 */
module Recovery {
  import opened Basics
  import opened DailySummary
  import opened History
  import opened HistoryStore
  import HS = HistorySystem

  const HISTORY_MAX_PAGES_PER_RUN := 256
  const RUN_LIMIT: nat := HISTORY_MAX_PAGES_PER_RUN * HS.HISTORY_PAGE_LIMIT

  // ---- replies ---------------------------------------------------------------

  /** A field is None when it is missing or of the wrong type. */
  datatype RawRecord =
    | NotAnObject
    | Object(sequence: Option<int>, captured: Option<int>, energyChannels: Option<map<string, Option<Values>>>)
  datatype HistoryData = HistoryData(
    records: Option<seq<RawRecord>>, returnedCount: Option<int>, nextCursor: Option<int>, hasMore: Option<bool>)
  datatype HistoryResponse = HistoryResponse(acknowledged: bool, data: Option<HistoryData>)
  datatype HistoryPage = HistoryPage(records: seq<Record>, nextCursor: int, hasMore: bool)

  predicate Numbered(raw: RawRecord) {
    raw.Object? && raw.sequence.Some? && raw.captured.Some? && raw.sequence.value >= 1 && raw.captured.value >= 1
  }

  function Typed(raw: RawRecord): Record
    requires Numbered(raw)
  {
    Record(raw.sequence.value, raw.captured.value, raw.energyChannels)
  }

  /** `records` are the reply's, all numbered, rising strictly from the cursor. */
  ghost predicate Follows(records: seq<Record>, raw: seq<RawRecord>, after: int) {
    && |records| == |raw|
    && (forall i :: 0 <= i < |raw| ==> Numbered(raw[i]) && records[i] == Typed(raw[i]) && after < records[i].sequence)
    && HS.Ascending(records)
  }

  /** The pages the worker accepts after a cursor. */
  ghost predicate Acceptable(response: HistoryResponse, after: int, page: HistoryPage) {
    && response.acknowledged && response.data.Some?
    && var data := response.data.value;
    && data.records.Some? && Follows(page.records, data.records.value, after)
    && |page.records| <= HS.HISTORY_PAGE_LIMIT
    && data.returnedCount == Some(|page.records|)
    && page.nextCursor == (if page.records == [] then after else page.records[|page.records| - 1].sequence)
    && data.nextCursor == Some(page.nextCursor)
    && data.hasMore == Some(page.hasMore) && (page.hasMore ==> page.records != [])
  }

  /** Accepts exactly the acceptable pages. */
  method ParseHistoryPage(response: HistoryResponse, after: int) returns (page: Option<HistoryPage>)
    ensures page.Some? ==> Acceptable(response, after, page.value)
    ensures page.None? ==> forall p :: !Acceptable(response, after, p)
  {
    if !response.acknowledged { return None; }
    if response.data.None? { return None; }
    var data := response.data.value;
    if data.records.None? { return None; }
    var raw := data.records.value;
    if |raw| > HS.HISTORY_PAGE_LIMIT { return None; }
    if data.returnedCount != Some(|raw|) { return None; }
    if data.nextCursor.None? || data.nextCursor.value < after {
      CursorIsNotBehind(response, after);
      return None;
    }
    if data.hasMore.None? { return None; }
    var records := ReadRecords(raw, after);
    if records.None? { return None; }
    var previous := if raw == [] then after else records.value[|raw| - 1].sequence;
    assert forall p :: Acceptable(response, after, p) ==> p.records == records.value by {
      forall p | Acceptable(response, after, p)
        ensures p.records == records.value
      {
        OnlyOneReading(p.records, records.value, raw, after);
      }
    }
    if raw != [] && data.nextCursor.value != previous { return None; }
    if raw == [] && data.nextCursor.value != after { return None; }
    if data.hasMore.value && raw == [] { return None; }
    return Some(HistoryPage(records.value, data.nextCursor.value, data.hasMore.value));
  }

  lemma CursorIsNotBehind(response: HistoryResponse, after: int)
    ensures forall p :: Acceptable(response, after, p) ==> after <= p.nextCursor
  {
  }

  lemma OnlyOneReading(one: seq<Record>, two: seq<Record>, raw: seq<RawRecord>, after: int)
    requires Follows(one, raw, after) && Follows(two, raw, after)
    ensures one == two
  {
  }

  lemma RisesFurther(rs: seq<Record>, read: seq<Record>, raw: seq<RawRecord>, after: int, i: nat)
    requires Follows(rs, raw, after) && i < |raw| && Follows(read, raw[..i], after)
    ensures (if i == 0 then after else read[i - 1].sequence) < raw[i].sequence.value
  {
    if i > 0 {
      assert raw[..i][i - 1] == raw[i - 1];
      assert rs[i - 1] == read[i - 1];
    }
  }

  method ReadRecords(raw: seq<RawRecord>, after: int) returns (records: Option<seq<Record>>)
    ensures records.Some? ==> Follows(records.value, raw, after)
    ensures records.None? ==> forall rs :: !Follows(rs, raw, after)
  {
    var read: seq<Record> := [];
    var previous := after;
    for i := 0 to |raw|
      invariant Follows(read, raw[..i], after)
      invariant previous == if i == 0 then after else read[i - 1].sequence
    {
      var r := raw[i];
      if !Numbered(r) { return None; }
      if r.sequence.value <= previous {
        forall rs | Follows(rs, raw, after)
          ensures false
        {
          RisesFurther(rs, read, raw, after, i);
        }
        return None;
      }
      read := read + [Typed(r)];
      previous := r.sequence.value;
    }
    assert raw[..|raw|] == raw;
    return Some(read);
  }

  // ---- an honest device ------------------------------------------------------

  /** What happens to one command: it works, or its request or its reply is lost. */
  datatype Fault = Works | RequestLost | ReplyLost

  function Untyped(r: Record): RawRecord { Object(Some(r.sequence), Some(r.captured), r.energyChannels) }

  function Page(buffer: seq<Record>): seq<Record> {
    if |buffer| <= HS.HISTORY_PAGE_LIMIT then buffer else buffer[..HS.HISTORY_PAGE_LIMIT]
  }

  /** The first records, the cursor they lead to and whether more follow. */
  function FirstPage(buffer: seq<Record>, after: int): HistoryPage {
    var cursor := if buffer == [] then after else HS.Highest(Page(buffer));
    HistoryPage(Page(buffer), cursor, |buffer| > HS.HISTORY_PAGE_LIMIT)
  }

  function HonestReply(buffer: seq<Record>, after: int): HistoryResponse {
    var page := Page(buffer);
    HistoryResponse(true, Some(HistoryData(
      Some(seq(|page|, i requires 0 <= i < |page| => Untyped(page[i]))), Some(|page|),
      Some(FirstPage(buffer, after).nextCursor), Some(|buffer| > HS.HISTORY_PAGE_LIMIT))))
  }

  lemma HonestReplyIsAcceptable(buffer: seq<Record>, after: int)
    requires HS.Ascending(buffer)
    requires forall r :: r in buffer ==> r.sequence >= 1 && r.captured >= 1 && after < r.sequence
    ensures Acceptable(HonestReply(buffer, after), after, FirstPage(buffer, after))
  {
    var page := Page(buffer);
    assert forall i :: 0 <= i < |page| ==> page[i] == buffer[i] && buffer[i] in buffer;
    assert Follows(page, HonestReply(buffer, after).data.value.records.value, after);
  }

  lemma OnlyOneAcceptable(response: HistoryResponse, after: int, one: HistoryPage, two: HistoryPage)
    requires Acceptable(response, after, one) && Acceptable(response, after, two)
    ensures one == two
  {
    OnlyOneReading(one.records, two.records, response.data.value.records.value, after);
  }

  ghost predicate AllAfter(buffer: seq<Record>, cursor: int) { forall r :: r in buffer ==> cursor < r.sequence }

  class Device {
    /** Records not yet acknowledged, oldest first, all beyond the acknowledged number. */
    var buffer: seq<Record>
    var acked: int
    /** The fate of the next commands; once it is used up, commands work. */
    var faults: seq<Fault>

    ghost predicate Valid()
      reads this
    {
      HS.Ascending(buffer) && AllAfter(buffer, acked) && forall r :: r in buffer ==> r.sequence >= 1 && r.captured >= 1
    }

    method NextFault() returns (fault: Fault)
      modifies this`faults
      ensures fault == if old(faults) == [] then Works else old(faults)[0]
      ensures faults == if old(faults) == [] then [] else old(faults)[1..]
    {
      if faults == [] { return Works; }
      fault := faults[0];
      faults := faults[1..];
    }

    /** The next page after a cursor that no buffered record has reached. */
    method GetHistory(after: int) returns (reply: Option<HistoryResponse>)
      requires Valid() && AllAfter(buffer, after)
      modifies this`faults
      ensures reply.Some? ==> Acceptable(reply.value, after, FirstPage(buffer, after))
      ensures if old(faults) == [] then reply.Some? && faults == [] else |faults| == |old(faults)| - 1
    {
      var fault := NextFault();
      if !fault.Works? { return None; }
      HonestReplyIsAcceptable(buffer, after);
      return Some(HonestReply(buffer, after));
    }

    /** Discards everything up to the acknowledged number. */
    method AckHistory(through: int) returns (confirmed: Option<int>)
      requires Valid()
      modifies this
      ensures Valid() && old(acked) <= acked
      ensures buffer == old(buffer) || buffer == HS.Unseen(old(buffer), through)
      ensures confirmed.Some? ==>
                confirmed == Some(through) && buffer == HS.Unseen(old(buffer), through) && through <= acked
      ensures if old(faults) == [] then confirmed.Some? && faults == [] else |faults| == |old(faults)| - 1
    {
      var fault := NextFault();
      if fault.RequestLost? { return None; }
      HS.UnseenIs(buffer, through);
      buffer := HS.Unseen(buffer, through);
      acked := HS.Max(acked, through);
      return if fault.ReplyLost? then None else Some(through);
    }
  }

  // ---- one run ---------------------------------------------------------------

  predicate AllImportable(records: seq<Record>, keys: set<string>) {
    forall r :: r in records ==>
      && r.sequence >= 1 && 1 <= r.captured < 253_402_300_800 && r.energyChannels.Some?
      && forall k :: k in r.energyChannels.value ==>
           k in {"power_1", "power_2", "power_3", "power_4"} && k in keys && r.energyChannels.value[k].Some?
  }

  /** How many records lie in the leading pages that can be stored whole. */
  function Storable(buffer: seq<Record>, keys: set<string>): (n: nat)
    ensures n <= |buffer|
  {
    if buffer == [] || !AllImportable(Page(buffer), keys) then 0
    else |Page(buffer)| + Storable(buffer[|Page(buffer)|..], keys)
  }

  function Least(a: nat, b: nat): nat { if a < b then a else b }

  lemma AcknowledgedPageLeaves(buffer: seq<Record>)
    requires HS.Ascending(buffer) && buffer != []
    ensures HS.Unseen(buffer, HS.Highest(Page(buffer))) == buffer[|Page(buffer)|..]
  {
    var through := HS.Highest(Page(buffer));
    var rest := buffer[1..];
    assert buffer[0].sequence <= through;
    assert HS.Unseen(buffer, through) == HS.Unseen(rest, through);
    if |buffer| >= 2 {
      assert rest[0] == buffer[1] && rest[1..] == buffer[2..];
      assert HS.Unseen(rest, through) == HS.Unseen(buffer[2..], through);
    }
  }

  datatype PageOutcome = Failed | NothingLeft | Acknowledged(cursor: int, more: bool)

  /** The page was discarded, and only after its records were stored. */
  ghost predicate PageDiscarded(before: seq<Record>, after: seq<Record>, ledger: map<int, Record>) {
    && before != [] && after == before[|Page(before)|..]
    && forall r :: r in Page(before) ==> r.sequence in ledger
  }

  lemma RestIsAfterPage(buffer: seq<Record>)
    requires HS.Ascending(buffer) && buffer != []
    ensures var rest := buffer[|Page(buffer)|..];
            && HS.Ascending(rest) && AllAfter(rest, HS.Highest(Page(buffer)))
            && HS.Highest(Page(buffer)) >= buffer[0].sequence
  {
  }

  /** Commands use up what is left of the faults; a run sends at least one. */
  predicate FaultsUsed(before: seq<Fault>, after: seq<Fault>) {
    if before == [] then after == [] else |after| < |before|
  }

  method OnePage(repo: Repository, device: Device, cursor: int, today: int) returns (outcome: PageOutcome)
    requires repo.Valid() && device.Valid() && AllAfter(device.buffer, cursor)
    modifies repo`ledger, repo`channels, device
    ensures repo.Valid() && repo.channels.Keys == old(repo.channels).Keys
    ensures old(repo.ledger).Keys <= repo.ledger.Keys
    ensures device.buffer == old(device.buffer) || PageDiscarded(old(device.buffer), device.buffer, repo.ledger)
    ensures device.buffer != old(device.buffer) ==> AllImportable(Page(old(device.buffer)), repo.channels.Keys)
    ensures device.Valid() && old(device.acked) <= device.acked && FaultsUsed(old(device.faults), device.faults)
    ensures outcome.NothingLeft? ==> old(device.buffer) == [] == device.buffer
    ensures outcome.Acknowledged? ==>
              && PageDiscarded(old(device.buffer), device.buffer, repo.ledger)
              && outcome == Acknowledged(HS.Highest(Page(old(device.buffer))), device.buffer != [])
              && (outcome.more ==> |Page(old(device.buffer))| == HS.HISTORY_PAGE_LIMIT)
              && cursor < outcome.cursor <= device.acked && AllAfter(device.buffer, outcome.cursor)
    ensures old(device.faults) == [] ==>
              && device.faults == []
              && (outcome.Failed? ==>
                   device.buffer == old(device.buffer) != [] && Storable(device.buffer, repo.channels.Keys) == 0)
  {
    var page := FetchPage(device, cursor);
    if page.None? { return Failed; }
    if page.value.records == [] { return NothingLeft; }
    var stored := StorePage(repo, page.value.records, today);
    if !stored { return Failed; }
    AcknowledgedPageLeaves(device.buffer);
    RestIsAfterPage(device.buffer);
    assert device.buffer[0] in device.buffer;
    var confirmed := device.AckHistory(page.value.nextCursor);
    if confirmed != Some(page.value.nextCursor) { return Failed; }
    return Acknowledged(page.value.nextCursor, page.value.hasMore);
  }

  method FetchPage(device: Device, cursor: int) returns (page: Option<HistoryPage>)
    requires device.Valid() && AllAfter(device.buffer, cursor)
    modifies device`faults
    ensures FaultsUsed(old(device.faults), device.faults)
    ensures page.Some? ==> page.value == FirstPage(device.buffer, cursor)
    ensures old(device.faults) == [] ==> page.Some? && device.faults == []
  {
    var reply := device.GetHistory(cursor);
    if reply.None? { return None; }
    page := ParseHistoryPage(reply.value, cursor);
    assert page.Some?;
    OnlyOneAcceptable(reply.value, cursor, page.value, FirstPage(device.buffer, cursor));
  }

  method StorePage(repo: Repository, records: seq<Record>, today: int) returns (stored: bool)
    requires repo.Valid()
    modifies repo`ledger, repo`channels
    ensures repo.Valid() && repo.channels.Keys == old(repo.channels).Keys
    ensures old(repo.ledger).Keys <= repo.ledger.Keys
    ensures stored <==> AllImportable(records, old(repo.channels).Keys)
    ensures stored ==> forall r :: r in records ==> r.sequence in repo.ledger
  {
    ghost var before := repo.Rows();
    assert AllImportable(records, before.channels.Keys)
        <==> forall r :: r in records ==> Importable(r, before.channels);
    var imported := repo.PersistPage(records, today);
    if imported.Some? {
      PersistFillsTheLedger(before, records, repo.cal, today);
    } else {
      assert repo.Rows() == before;
    }
    return imported.Some?;
  }

  // ---- the pages of one run --------------------------------------------------

  ghost predicate AllStored(records: seq<Record>, ledger: map<int, Record>) {
    forall r :: r in records ==> r.sequence in ledger
  }

  lemma StorableAfterPage(buffer: seq<Record>, keys: set<string>)
    requires buffer != [] && AllImportable(Page(buffer), keys)
    ensures Storable(buffer, keys) == |Page(buffer)| + Storable(buffer[|Page(buffer)|..], keys)
  {
  }

  /** What a run has discarded so far was stored first, and was storable. */
  ghost predicate Progress(before: seq<Record>, now: seq<Record>, n: nat, keys: set<string>, ledger: map<int, Record>) {
    && n <= |before| && now == before[n..]
    && AllStored(before[..n], ledger)
    && Storable(before, keys) == n + Storable(now, keys)
  }

  lemma PageProgress(
    before: seq<Record>, now: seq<Record>, n: nat, keys: set<string>, ledger: map<int, Record>,
    now': seq<Record>, ledger': map<int, Record>)
    requires Progress(before, now, n, keys, ledger)
    requires PageDiscarded(now, now', ledger') && AllImportable(Page(now), keys) && ledger.Keys <= ledger'.Keys
    ensures Progress(before, now', n + |Page(now)|, keys, ledger')
  {
    var m := n + |Page(now)|;
    assert before[..m] == before[..n] + Page(now);
    StorableAfterPage(now, keys);
  }

  /** One page, seen as progress of the run. */
  method PageOfRun(repo: Repository, device: Device, cursor: int, today: int, ghost buffer: seq<Record>, ghost n: nat)
    returns (outcome: PageOutcome, ghost n': nat)
    requires repo.Valid() && device.Valid() && AllAfter(device.buffer, cursor)
    requires Progress(buffer, device.buffer, n, repo.channels.Keys, repo.ledger)
    modifies repo`ledger, repo`channels, device
    ensures repo.Valid() && device.Valid() && repo.channels.Keys == old(repo.channels).Keys
    ensures old(repo.ledger).Keys <= repo.ledger.Keys
    ensures old(device.acked) <= device.acked && FaultsUsed(old(device.faults), device.faults)
    ensures Progress(buffer, device.buffer, n', repo.channels.Keys, repo.ledger) && n <= n' <= n + HS.HISTORY_PAGE_LIMIT
    ensures outcome.NothingLeft? ==> device.buffer == [] && n' == n
    ensures outcome.Acknowledged? ==>
              && cursor < outcome.cursor <= device.acked && AllAfter(device.buffer, outcome.cursor)
              && (if outcome.more then device.buffer != [] && n' == n + HS.HISTORY_PAGE_LIMIT else device.buffer == [])
    ensures old(device.faults) == [] ==>
              && device.faults == []
              && (outcome.Failed? ==>
                    n' == n && device.buffer != [] && Storable(device.buffer, repo.channels.Keys) == 0)
  {
    outcome := OnePage(repo, device, cursor, today);
    n' := n;
    if device.buffer != old(device.buffer) {
      PageProgress(buffer, old(device.buffer), n, repo.channels.Keys, old(repo.ledger), device.buffer, repo.ledger);
      n' := n + |Page(old(device.buffer))|;
    }
  }

  function Last(start: int, cursors: seq<int>): int { if cursors == [] then start else cursors[|cursors| - 1] }

  ghost predicate Rising(cursors: seq<int>) {
    forall i, j :: 0 <= i < j < |cursors| ==> cursors[i] < cursors[j]
  }

  lemma RisesTo(start: int, cursors: seq<int>, through: int)
    requires Rising([start] + cursors) && Last(start, cursors) < through
    ensures Rising([start] + (cursors + [through]))
  {
    assert [start] + (cursors + [through]) == [start] + cursors + [through];
    assert ([start] + cursors)[|cursors|] == Last(start, cursors);
  }

  /**
   Asks, checks, stores and acknowledges page after page. `cursors` are the
   numbers acknowledged. Whatever fails, only stored records are discarded;
   when nothing is lost, the outcome depends on the backlog alone.
   */
  method Recover(repo: Repository, device: Device, start: int, today: int)
    returns (completed: bool, cursors: seq<int>, ghost n: nat)
    requires repo.Valid() && device.Valid() && AllAfter(device.buffer, start)
    modifies repo`ledger, repo`channels, device
    ensures repo.Valid() && repo.channels.Keys == old(repo.channels).Keys
    ensures old(repo.ledger).Keys <= repo.ledger.Keys
    ensures device.Valid() && AllAfter(device.buffer, Last(start, cursors))
    ensures FaultsUsed(old(device.faults), device.faults)
    ensures start <= old(device.acked) ==> HS.Max(old(device.acked), Last(start, cursors)) <= device.acked
    ensures n <= 512 && Progress(old(device.buffer), device.buffer, n, old(repo.channels).Keys, repo.ledger)
    ensures completed ==> device.buffer == []
    ensures Rising([start] + cursors)
    ensures old(device.faults) == [] ==>
              && device.faults == [] && n == Least(512, Storable(old(device.buffer), old(repo.channels).Keys))
              && (completed <==> n == |old(device.buffer)|)
  {
    var cursor := start;
    completed, cursors, n := false, [], 0;
    ghost var buffer, keys := device.buffer, repo.channels.Keys;
    for page := 0 to HISTORY_MAX_PAGES_PER_RUN
      invariant repo.Valid() && device.Valid() && repo.channels.Keys == keys
      invariant Progress(buffer, device.buffer, n, keys, repo.ledger)
      invariant !completed && n == HS.HISTORY_PAGE_LIMIT * page && (page > 0 ==> device.buffer != [])
      invariant AllAfter(device.buffer, cursor) && old(repo.ledger).Keys <= repo.ledger.Keys
      invariant Rising([start] + cursors) && cursor == Last(start, cursors)
      invariant if page == 0 then device.faults == old(device.faults) else FaultsUsed(old(device.faults), device.faults)
      invariant old(device.acked) <= device.acked && (start <= old(device.acked) ==> cursor <= device.acked)
    {
      var outcome;
      outcome, n := PageOfRun(repo, device, cursor, today, buffer, n);
      match outcome {
        case Failed => break;
        case NothingLeft =>
          completed := true;
          break;
        case Acknowledged(through, more) =>
          RisesTo(start, cursors, through);
          cursors := cursors + [through];
          cursor := through;
          if !more {
            completed := true;
            break;
          }
      }
    }
  }

  // ---- repeated runs -----------------------------------------------------------

  lemma {:induction false} WholeBacklogIsStorable(buffer: seq<Record>, keys: set<string>)
    requires AllImportable(buffer, keys)
    ensures Storable(buffer, keys) == |buffer|
    decreases |buffer|
  {
    if buffer != [] {
      var page, rest := Page(buffer), buffer[|Page(buffer)|..];
      assert forall r :: r in page || r in rest ==> r in buffer;
      WholeBacklogIsStorable(rest, keys);
    }
  }

  /** The runs it takes to drain a backlog: one, and one more for every full run before. */
  function RunsNeeded(backlog: nat): (runs: nat)
    ensures runs >= 1 && backlog <= runs * 512
    ensures runs > 1 ==> (runs - 1) * 512 < backlog
  {
    if backlog <= RUN_LIMIT then 1 else 1 + RunsNeeded(backlog - RUN_LIMIT)
  }

  lemma {:induction false} FewerRuns(small: nat, large: nat)
    requires small <= large
    ensures RunsNeeded(small) <= RunsNeeded(large)
    decreases large
  {
    if small > RUN_LIMIT {
      FewerRuns(small - RUN_LIMIT, large - RUN_LIMIT);
    }
  }

  lemma RisesOn(start: int, cursors: seq<int>, next: int, more: seq<int>)
    requires Rising([start] + cursors) && Last(start, cursors) <= next && Rising([next] + more)
    ensures Rising([start] + (cursors + more)) && Last(start, cursors + more) <= Last(next, more)
  {
    var all, one, two := [start] + (cursors + more), [start] + cursors, [next] + more;
    assert forall i :: 0 <= i < |all| ==> all[i] == if i < |one| then one[i] else two[i - |cursors|];
    assert one[|cursors|] == Last(start, cursors) <= two[0];
    assert forall i :: 0 <= i < |one| ==> one[i] <= one[|cursors|];
    assert forall i :: 0 < i < |two| ==> two[0] < two[i];
  }

  lemma FullRun(before: seq<Record>, now: seq<Record>, n: nat, keys: set<string>, ledger: map<int, Record>)
    requires AllImportable(before, keys) && Progress(before, now, n, keys, ledger)
    ensures AllImportable(now, keys) && |now| == |before| - n && Storable(before, keys) == |before|
  {
    WholeBacklogIsStorable(before, keys);
    assert forall r :: r in now ==> r in before;
  }

  /**
   Retrying failed runs, each from what the device reports as acknowledged,
   drains any backlog whatever finite number of commands fail: each run either
   uses up some of the faults or moves a full block.
   */
  method RecoverRepeatedly(repo: Repository, device: Device, today: int) returns (runs: nat, cursors: seq<int>)
    requires repo.Valid() && device.Valid() && AllImportable(device.buffer, repo.channels.Keys)
    modifies repo`ledger, repo`channels, device
    ensures device.buffer == [] && AllStored(old(device.buffer), repo.ledger)
    ensures runs <= RunsNeeded(|old(device.buffer)|) + |old(device.faults)|
    ensures old(device.faults) == [] ==> runs == RunsNeeded(|old(device.buffer)|)
    ensures Rising([old(device.acked)] + cursors)
  {
    ghost var backlog, keys, faults := device.buffer, repo.channels.Keys, device.faults;
    ghost var done: nat := 0;
    var start, completed := device.acked, false;
    runs, cursors := 0, [];
    while !completed
      invariant repo.Valid() && device.Valid() && repo.channels.Keys == keys && AllImportable(device.buffer, keys)
      invariant done <= |backlog| && device.buffer == backlog[done..] && AllStored(backlog[..done], repo.ledger)
      invariant Rising([start] + cursors) && Last(start, cursors) <= device.acked
      invariant completed ==> device.buffer == []
      invariant runs + |device.faults| + StillNeeded(completed, |device.buffer|) <= RunsNeeded(|backlog|) + |faults|
      invariant faults == [] ==>
                  device.faults == [] && runs + StillNeeded(completed, |device.buffer|) == RunsNeeded(|backlog|)
      decreases !completed, |device.faults|, |device.buffer|
    {
      ghost var n: nat;
      var from, more := device.acked, [];
      ghost var before := |device.buffer|;
      completed, more, n := OneMoreRun(repo, device, today, backlog, done);
      RisesOn(start, cursors, from, more);
      FewerRuns(|device.buffer|, before);
      done, runs, cursors := done + n, runs + 1, cursors + more;
    }
    assert backlog[..done] == backlog;
  }

  function StillNeeded(completed: bool, backlog: nat): nat { if completed then 0 else RunsNeeded(backlog) }

  /** One run from what the device reports, seen as progress on a longer backlog. */
  method OneMoreRun(repo: Repository, device: Device, today: int, ghost backlog: seq<Record>, ghost done: nat)
    returns (completed: bool, cursors: seq<int>, ghost n: nat)
    requires repo.Valid() && device.Valid() && AllImportable(device.buffer, repo.channels.Keys)
    requires done <= |backlog| && device.buffer == backlog[done..] && AllStored(backlog[..done], repo.ledger)
    modifies repo`ledger, repo`channels, device
    ensures repo.Valid() && device.Valid() && repo.channels.Keys == old(repo.channels).Keys
    ensures AllImportable(device.buffer, repo.channels.Keys) && FaultsUsed(old(device.faults), device.faults)
    ensures done + n <= |backlog| && device.buffer == backlog[done + n..] && AllStored(backlog[..done + n], repo.ledger)
    ensures Rising([old(device.acked)] + cursors) && Last(old(device.acked), cursors) <= device.acked
    ensures completed ==> device.buffer == []
    ensures old(device.faults) == [] ==>
              n == Least(512, |old(device.buffer)|) && (completed <==> n == |old(device.buffer)|)
  {
    ghost var now, ledger := device.buffer, repo.ledger;
    completed, cursors, n := Recover(repo, device, device.acked, today);
    FullRun(now, device.buffer, n, repo.channels.Keys, repo.ledger);
    StoredFurther(backlog, done, n, ledger, repo.ledger);
  }

  lemma StoredFurther(backlog: seq<Record>, done: nat, n: nat, ledger: map<int, Record>, ledger': map<int, Record>)
    requires done + n <= |backlog| && ledger.Keys <= ledger'.Keys
    requires AllStored(backlog[..done], ledger) && AllStored(backlog[done..][..n], ledger')
    ensures AllStored(backlog[..done + n], ledger') && backlog[done + n..] == backlog[done..][n..]
  {
    assert backlog[..done + n] == backlog[..done] + backlog[done..][..n];
  }
}
