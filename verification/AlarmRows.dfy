/** The rows a snapshot writes, field by field: what is opened, refreshed, superseded, cleared and closed. */
module AlarmRows {
  import opened Basics
  import opened Alarms
  import opened AlarmLaws

  // ---- rows over time ----------------------------------------------------------

  /** What opened a row never changes, a cleared row not at all, and a row is cleared at the snapshot's time. */
  predicate RowKept(before: Occurrence, after: Occurrence, at: Time) {
    && after.key == before.key && after.severity == before.severity && after.activatedAt == before.activatedAt
    && after.boot == before.boot && after.count == before.count
    && (before.status.Cleared? ==> after == before)
    && (before.status.Open? && after.status.Cleared? ==> after.clearedAt == Some(at))
  }

  /** The row was opened by an item of the snapshot. */
  ghost predicate OpenedBy(row: Occurrence, items: seq<RawItem>, boot: int, at: Time) {
    && row.activatedAt == at && row.boot == boot
    && exists i :: 0 <= i < |items| && Activates(items[i]) && items[i].id == Some(row.key)
         && items[i].severity == Some(row.severity) && items[i].count == Some(row.count)
  }

  ghost predicate RowsAreKept(before: seq<Occurrence>, after: seq<Occurrence>, at: Time) {
    |before| <= |after| && forall i :: 0 <= i < |before| ==> RowKept(before[i], after[i], at)
  }

  ghost predicate RestIsOpened(after: seq<Occurrence>, n: nat, items: seq<RawItem>, boot: int, at: Time) {
    forall i :: n <= i < |after| ==> OpenedBy(after[i], items, boot, at)
  }

  lemma StillOpenedBy(row: Occurrence, items: seq<RawItem>, n: nat, boot: int, at: Time)
    requires n <= |items| && OpenedBy(row, items[..n], boot, at)
    ensures OpenedBy(row, items, boot, at)
  {
    var i :| 0 <= i < n && Activates(items[..n][i]) && items[..n][i].id == Some(row.key)
      && items[..n][i].severity == Some(row.severity) && items[..n][i].count == Some(row.count);
    assert items[i] == items[..n][i];
  }

  lemma KeptRowIsOpenedBy(row: Occurrence, after: Occurrence, items: seq<RawItem>, boot: int, at: Time)
    requires OpenedBy(row, items, boot, at) && RowKept(row, after, at)
    ensures OpenedBy(after, items, boot, at)
  {
  }

  lemma ItemKeepsRows(t: Table, item: RawItem, boot: int, at: Time)
    requires Readable(item) && ItemEffect(t, item, boot, at).Some?
    ensures var after := ItemEffect(t, item, boot, at).value.0;
            && RowsAreKept(t.rows, after.rows, at) && |after.rows| <= |t.rows| + 1
            && (|after.rows| > |t.rows| ==>
                  && Activates(item)
                       && after.rows[|t.rows|] == Occurrence(item.id.value, item.severity.value, Open, boot,
                       item.count.value, item.value, item.threshold, at, None, None))
  {
  }

  lemma {:induction false} PassKeepsRows(t: Table, ready: bool, items: seq<RawItem>, boot: int, at: Time)
    requires Pass(t, ready, items, boot, at).Some?
    ensures var rows := Pass(t, ready, items, boot, at).value.table.rows;
            RowsAreKept(t.rows, rows, at) && RestIsOpened(rows, |t.rows|, items, boot, at)
  {
    if items != [] {
      var n := |items| - 1;
      var before, after := Pass(t, ready, items[..n], boot, at).value.table,
          Pass(t, ready, items, boot, at).value.table;
      PassKeepsRows(t, ready, items[..n], boot, at);
      if Readable(items[n]) { ItemKeepsRows(before, items[n], boot, at); }
      forall i | |t.rows| <= i < |after.rows|
        ensures OpenedBy(after.rows[i], items, boot, at)
      {
        if i < |before.rows| {
          StillOpenedBy(before.rows[i], items, n, boot, at);
          KeptRowIsOpenedBy(before.rows[i], after.rows[i], items, boot, at);
        } else {
          assert Activates(items[n]);
        }
      }
    }
  }

  lemma {:induction false} ClosingWrites(t: Table, seen: set<string>, at: Time, n: nat)
    requires n <= |t.rows|
    ensures var u := CloseMissing(t, seen, at, n);
            forall i :: 0 <= i < n ==>
              u.rows[i] == if t.rows[i].status.Open? && t.rows[i].key !in seen
                           then t.rows[i].(status := Cleared, clearedAt := Some(at), clearCount := None) else t.rows[i]
  {
    if n > 0 {
      ClosingWrites(t, seen, at, n - 1);
    }
  }

  /**
   An occurrence keeps for good the key, severity, boot, count and time that opened
   it, and once cleared everything; a new one has those of an item of the snapshot.
   */
  lemma OccurrencesAreKept(t: Table, s: Snapshot, boot: int, at: Time)
    requires Ingest(t, s, boot, at).Some?
    ensures var rows := Ingest(t, s, boot, at).value.0.rows;
            RowsAreKept(t.rows, rows, at) && RestIsOpened(rows, |t.rows|, s.items, boot, at)
  {
    var p, u := Pass(t, s.ready, s.items, boot, at).value, Ingest(t, s, boot, at).value.0;
    PassKeepsRows(t, s.ready, s.items, boot, at);
    if p.complete {
      ClosingWrites(p.table, p.seen, at, |p.table.rows|);
      forall i | |t.rows| <= i < |u.rows|
        ensures OpenedBy(u.rows[i], s.items, boot, at)
      {
        KeptRowIsOpenedBy(p.table.rows[i], u.rows[i], s.items, boot, at);
      }
    }
  }

  // ---- events --------------------------------------------------------------------

  /** The event was recorded on the way from one table to the other. */
  ghost predicate Logs(t: Table, u: Table, e: Event) {
    t.events <= u.events && exists k :: |t.events| <= k < |u.events| && u.events[k] == e
  }

  lemma LogsAcross(t: Table, before: Table, after: Table, u: Table, e: Event)
    requires t.events <= before.events && after.events <= u.events && Logs(before, after, e)
    ensures Logs(t, u, e)
  {
    var k :| |before.events| <= k < |after.events| && after.events[k] == e;
    assert u.events[k] == e;
  }

  lemma ItemLogs(t: Table, item: RawItem, boot: int, at: Time)
    requires Readable(item) && ItemEffect(t, item, boot, at).Some?
    ensures t.events <= ItemEffect(t, item, boot, at).value.0.events
  {
  }

  lemma {:induction false} PassLogs(t: Table, ready: bool, items: seq<RawItem>, boot: int, at: Time, m: nat)
    requires Pass(t, ready, items, boot, at).Some? && m <= |items|
    ensures Pass(t, ready, items[..m], boot, at).Some?
    ensures t.events <= Pass(t, ready, items[..m], boot, at).value.table.events
         <= Pass(t, ready, items, boot, at).value.table.events
  {
    var n := |items| - 1;
    if m < |items| {
      assert items[..n][..m] == items[..m];
      PassLogs(t, ready, items[..n], boot, at, m);
      if Readable(items[n]) { ItemLogs(Pass(t, ready, items[..n], boot, at).value.table, items[n], boot, at); }
    } else {
      assert items[..m] == items;
      if items != [] {
        PassLogs(t, ready, items[..n], boot, at, n);
        assert items[..n][..n] == items[..n];
        if Readable(items[n]) { ItemLogs(Pass(t, ready, items[..n], boot, at).value.table, items[n], boot, at); }
      }
    }
  }

  lemma {:induction false} ClosingLogs(t: Table, seen: set<string>, at: Time, n: nat)
    requires n <= |t.rows|
    ensures var u := CloseMissing(t, seen, at, n);
            && t.events <= u.events
            && forall i :: 0 <= i < n && t.rows[i].status.Open? && t.rows[i].key !in seen ==>
                 Logs(t, u, WasCleared(i, t.rows[i].key, RuleDisabledOrMissing))
  {
    if n > 0 {
      ClosingLogs(t, seen, at, n - 1);
      var before, u := CloseMissing(t, seen, at, n - 1), CloseMissing(t, seen, at, n);
      assert before.events <= u.events;
      forall i | 0 <= i < n && t.rows[i].status.Open? && t.rows[i].key !in seen
        ensures Logs(t, u, WasCleared(i, t.rows[i].key, RuleDisabledOrMissing))
      {
        if i < n - 1 {
          LogsAcross(t, t, before, u, WasCleared(i, t.rows[i].key, RuleDisabledOrMissing));
        } else {
          assert u.events[|before.events|] == WasCleared(i, t.rows[i].key, RuleDisabledOrMissing);
        }
      }
    }
  }

  // ---- one key in one snapshot -------------------------------------------------

  /** Item i names the key and no other item does. */
  ghost predicate OnlyItem(items: seq<RawItem>, i: nat, key: string) {
    && i < |items| && Names(items[i], key)
    && forall j :: 0 <= j < |items| && j != i ==> !Names(items[j], key)
  }

  predicate Repeats(row: Occurrence, item: RawItem, boot: int)
    requires item.Item?
  {
    row.boot == boot && Some(row.count) == item.count
  }

  /** What becomes of the open row: refreshed, left alone, or cleared with the item's count. */
  predicate Rewritten(before: Occurrence, after: Occurrence, item: RawItem, boot: int, at: Time)
    requires Readable(item)
  {
    if item.state in {Some(Normal), Some(PendingActive)} then
      after == before.(status := Cleared, clearedAt := Some(at), clearCount := item.count)
    else if item.count == Some(0) then after == before
    else if Repeats(before, item, boot) then after == before.(value := item.value, threshold := item.threshold)
    else after == before.(status := Cleared, clearedAt := Some(at), clearCount := item.count)
  }

  function ReasonOf(item: RawItem): Reason
    requires item.Item?
  {
    if item.state in {Some(Normal), Some(PendingActive)} then ThresholdNormal else Superseded
  }

  /** A row with the item's own fields, and its event. */
  ghost predicate IsOpened(t: Table, u: Table, item: RawItem, boot: int, at: Time)
    requires Readable(item)
  {
    exists j: nat :: |t.rows| <= j < |u.rows| && IsRowOf(u.rows[j], item, boot, at)
      && Logs(t, u, Activated(j, item.id.value))
  }

  predicate IsRowOf(row: Occurrence, item: RawItem, boot: int, at: Time)
    requires Readable(item)
  {
    row == Occurrence(item.id.value, item.severity.value, Open, boot, item.count.value, item.value, item.threshold,
      at, None, None)
  }

  /** The open row is rewritten, and a row it clears is recorded with its reason. */
  ghost predicate DecidesOpen(t: Table, u: Table, j: nat, item: RawItem, boot: int, at: Time)
    requires Readable(item) && j < |t.rows|
  {
    && j < |u.rows| && Rewritten(t.rows[j], u.rows[j], item, boot, at)
    && (u.rows[j].status.Cleared? ==> Logs(t, u, WasCleared(j, item.id.value, ReasonOf(item))))
  }

  ghost predicate NoneRepeats(t: Table, item: RawItem, boot: int)
    requires Readable(item)
  {
    forall j: nat :: OpenAt(t.rows, j, item.id.value) ==> !Repeats(t.rows[j], item, boot)
  }

  ghost predicate Decides(t: Table, u: Table, item: RawItem, boot: int, at: Time)
    requires Readable(item)
  {
    && (forall j: nat :: OpenAt(t.rows, j, item.id.value) ==> DecidesOpen(t, u, j, item, boot, at))
    && (item.state in {Some(Active), Some(PendingClear)} && item.count != Some(0) && NoneRepeats(t, item, boot) ==>
          IsOpened(t, u, item, boot, at))
  }

  lemma ItemDecides(t: Table, item: RawItem, boot: int, at: Time)
    requires OneOpen(t.rows) && Readable(item) && ItemEffect(t, item, boot, at).Some?
    ensures Decides(t, ItemEffect(t, item, boot, at).value.0, item, boot, at)
  {
    var active := ActiveIndex(t.rows, item.id.value);
    var u := ItemEffect(t, item, boot, at).value.0;
    ItemLogs(t, item, boot, at);
    forall j: nat | OpenAt(t.rows, j, item.id.value)
      ensures DecidesOpen(t, u, j, item, boot, at)
    {
      assert active == Some(j);
      if u.rows[j].status.Cleared? {
        assert u.events[|t.events|] == WasCleared(j, item.id.value, ReasonOf(item));
      }
    }
    if Activates(item) && |u.rows| > |t.rows| {
      assert u.rows[|t.rows|] == NewRow(item, boot, at);
      assert u.events[|u.events| - 1] == Activated(|t.rows|, item.id.value);
    }
  }

  lemma DecidesAcross(t: Table, before: Table, after: Table, u: Table, item: RawItem, boot: int, at: Time)
    requires Readable(item) && KeyUntouched(t, before, item.id.value) && KeyUntouched(after, u, item.id.value)
    requires t.events <= before.events && after.events <= u.events
    requires Decides(before, after, item, boot, at)
    ensures Decides(t, u, item, boot, at)
  {
    var key := item.id.value;
    forall j: nat | OpenAt(t.rows, j, key)
      ensures DecidesOpen(t, u, j, item, boot, at)
    {
      assert OpenAt(before.rows, j, key) && DecidesOpen(before, after, j, item, boot, at);
      assert after.rows[j].key == key;
      if u.rows[j].status.Cleared? {
        LogsAcross(t, before, after, u, WasCleared(j, key, ReasonOf(item)));
      }
    }
    if NoneRepeats(t, item, boot) {
      forall j: nat | OpenAt(before.rows, j, key)
        ensures !Repeats(before.rows[j], item, boot)
      {
        assert OpenAt(t.rows, j, key);
      }
    }
    if IsOpened(before, after, item, boot, at) {
      var j: nat :| |before.rows| <= j < |after.rows| && IsRowOf(after.rows[j], item, boot, at)
        && Logs(before, after, Activated(j, key));
      assert u.rows[j] == after.rows[j];
      LogsAcross(t, before, after, u, Activated(j, key));
    }
  }

  lemma UntouchedAcross(t: Table, u: Table, v: Table, key: string)
    requires KeyUntouched(t, u, key) && KeyUntouched(u, v, key)
    ensures KeyUntouched(t, v, key)
  {
  }

  lemma {:induction false} LaterItemsLeaveKey(
    t: Table, ready: bool, items: seq<RawItem>, boot: int, at: Time, key: string, m: nat)
    requires Pass(t, ready, items, boot, at).Some? && m <= |items|
    requires forall i :: m <= i < |items| ==> !Names(items[i], key)
    ensures Pass(t, ready, items[..m], boot, at).Some?
    ensures KeyUntouched(Pass(t, ready, items[..m], boot, at).value.table,
              Pass(t, ready, items, boot, at).value.table, key)
  {
    var n := |items| - 1;
    if m == |items| {
      assert items[..m] == items;
    } else {
      assert items[..n][..m] == items[..m];
      LaterItemsLeaveKey(t, ready, items[..n], boot, at, key, m);
      var before := Pass(t, ready, items[..n], boot, at).value.table;
      if Readable(items[n]) {
        assert !Names(items[n], key);
        OtherKeysUntouched(before, items[n], boot, at, key);
        UntouchedAcross(Pass(t, ready, items[..m], boot, at).value.table, before,
            Pass(t, ready, items, boot, at).value.table, key);
      }
    }
  }

  lemma ClosingLeavesSeen(p: Progress, at: Time, key: string)
    requires key in p.seen
    ensures KeyUntouched(p.table, Closed(p, at).0, key) && p.table.events <= Closed(p, at).0.events
  {
    ClosingWrites(p.table, p.seen, at, |p.table.rows|);
    ClosingLogs(p.table, p.seen, at, |p.table.rows|);
  }

  /**
   A snapshot's only item for a key decides its rows: the open occurrence is
   refreshed with the item's value and threshold, left alone, or cleared with its
   count, and a new activation has a row with the item's own fields; events say so.
   */
  lemma OnlyItemDecides(t: Table, s: Snapshot, boot: int, at: Time, i: nat, key: string)
    requires Inv(t) && Ingest(t, s, boot, at).Some? && OnlyItem(s.items, i, key)
    ensures Decides(t, Ingest(t, s, boot, at).value.0, s.items[i], boot, at)
  {
    var items := s.items;
    var p := Pass(t, s.ready, items, boot, at).value;
    LaterItemsLeaveKey(t, s.ready, items, boot, at, key, i + 1);
    assert items[..i + 1][..i] == items[..i];
    var before := Pass(t, s.ready, items[..i], boot, at).value.table;
    var after := Pass(t, s.ready, items[..i + 1], boot, at).value.table;
    assert forall j :: 0 <= j < i ==> items[..i][j] == items[j];
    PassTouchesNamedKeys(t, s.ready, items[..i], boot, at, key);
    PassLogs(t, s.ready, items, boot, at, i);
    PassLogs(t, s.ready, items, boot, at, i + 1);
    PassKeeps(t, s.ready, items[..i], boot, at);
    ItemDecides(before, items[i], boot, at);
    PassSees(t, s.ready, items, boot, at);
    ClosingLeavesSeen(p, at, key);
    UntouchedAcross(after, p.table, Closed(p, at).0, key);
    DecidesAcross(t, before, after, Closed(p, at).0, items[i], boot, at);
  }

  /** A complete snapshot closes the open row of every key it does not name, without a count. */
  lemma MissingIsClosed(t: Table, s: Snapshot, boot: int, at: Time, j: nat, key: string)
    requires Ingest(t, s, boot, at).Some? && s.ready && AllReadable(s.items) && !Seen(s.items, key)
    requires OpenAt(t.rows, j, key)
    ensures var u := Ingest(t, s, boot, at).value.0;
            && j < |u.rows|
            && u.rows[j] == t.rows[j].(status := Cleared, clearedAt := Some(at), clearCount := None)
            && Logs(t, u, WasCleared(j, key, RuleDisabledOrMissing))
  {
    var p := Pass(t, s.ready, s.items, boot, at).value;
    forall i | 0 <= i < |s.items|
      ensures !Names(s.items[i], key)
    {
    }
    PassTouchesNamedKeys(t, s.ready, s.items, boot, at, key);
    PassSees(t, s.ready, s.items, boot, at);
    PassLogs(t, s.ready, s.items, boot, at, |s.items|);
    ClosingWrites(p.table, p.seen, at, |p.table.rows|);
    ClosingLogs(p.table, p.seen, at, |p.table.rows|);
    LogsAcross(t, p.table, Closed(p, at).0, Closed(p, at).0, WasCleared(j, key, RuleDisabledOrMissing));
  }

  // ---- the number of changes -----------------------------------------------------

  /** The events that stand for a change; superseding one occurrence by another is one change, not two. */
  function ChangesIn(events: seq<Event>): nat {
    if events == [] then 0
    else
      var last := events[|events| - 1];
      ChangesIn(events[..|events| - 1]) + if last.WasCleared? && last.reason == Superseded then 0 else 1
  }

  lemma OneMoreChange(events: seq<Event>, e: Event)
    ensures ChangesIn(events + [e]) == ChangesIn(events) + if e.WasCleared? && e.reason == Superseded then 0 else 1
  {
    assert (events + [e])[..|events|] == events;
  }

  lemma ItemChanges(t: Table, item: RawItem, boot: int, at: Time)
    requires Readable(item) && ItemEffect(t, item, boot, at).Some?
    ensures var effect := ItemEffect(t, item, boot, at).value;
            ChangesIn(effect.0.events) == ChangesIn(t.events) + effect.1
  {
    var active := ActiveIndex(t.rows, item.id.value);
    if active.Some? {
      OneMoreChange(t.events, WasCleared(active.value, item.id.value, Superseded));
      OneMoreChange(t.events, WasCleared(active.value, item.id.value, ThresholdNormal));
      OneMoreChange(t.events + [WasCleared(active.value, item.id.value, Superseded)],
          Activated(|t.rows|, item.id.value));
    } else {
      OneMoreChange(t.events, Activated(|t.rows|, item.id.value));
    }
  }

  lemma {:induction false} PassChanges(t: Table, ready: bool, items: seq<RawItem>, boot: int, at: Time)
    requires Pass(t, ready, items, boot, at).Some?
    ensures var p := Pass(t, ready, items, boot, at).value;
            ChangesIn(p.table.events) == ChangesIn(t.events) + p.changes
  {
    if items != [] {
      var n := |items| - 1;
      PassChanges(t, ready, items[..n], boot, at);
      if Readable(items[n]) {
        ItemChanges(Pass(t, ready, items[..n], boot, at).value.table, items[n], boot, at);
      }
    }
  }

  lemma {:induction false} ClosingChanges(t: Table, seen: set<string>, at: Time, n: nat)
    requires n <= |t.rows|
    ensures ChangesIn(CloseMissing(t, seen, at, n).events) == ChangesIn(t.events) + CountMissing(t.rows, seen, n)
  {
    if n > 0 {
      ClosingChanges(t, seen, at, n - 1);
      var before := CloseMissing(t, seen, at, n - 1);
      if Missing(before.rows, n - 1, seen) {
        OneMoreChange(before.events, WasCleared(n - 1, before.rows[n - 1].key, RuleDisabledOrMissing));
      }
    }
  }

  /** The answer to a snapshot is the number of changes its events record. */
  lemma AnswerCountsChanges(t: Table, s: Snapshot, boot: int, at: Time)
    requires Ingest(t, s, boot, at).Some?
    ensures var done := Ingest(t, s, boot, at).value;
            ChangesIn(done.0.events) == ChangesIn(t.events) + done.1
  {
    var p := Pass(t, s.ready, s.items, boot, at).value;
    PassChanges(t, s.ready, s.items, boot, at);
    ClosingChanges(p.table, p.seen, at, |p.table.rows|);
  }
}
