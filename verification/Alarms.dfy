/**
 Alarm occurrences of one device, driven by the snapshots it repeats: opened and
 cleared by reported states, superseded, or closed when a rule disappears.
 */
module Alarms {
  import opened Basics

  datatype State = Normal | PendingActive | Active | PendingClear
  datatype Severity = Info | Warning | Critical
  datatype Status = Open | Cleared
  datatype Reason = Superseded | ThresholdNormal | RuleDisabledOrMissing

  datatype Occurrence = Occurrence(
    key: string, severity: Severity, status: Status, boot: int, count: int,
    value: Option<real>, threshold: Option<real>,
    activatedAt: Time, clearedAt: Option<Time>, clearCount: Option<int>)
  /** occurrence is the row's position, its identity. */
  datatype Event = Activated(occurrence: nat, key: string) | WasCleared(occurrence: nat, key: string, reason: Reason)
  datatype Table = Table(rows: seq<Occurrence>, events: seq<Event>)

  /** One reported alarm; a field is None when it is missing, of the wrong type or unknown. */
  datatype RawItem =
    | NotAnObject
    | Item(id: Option<string>, state: Option<State>, severity: Option<Severity>,
        count: Option<int>, value: Option<real>, threshold: Option<real>)
  datatype Snapshot = Snapshot(ready: bool, items: seq<RawItem>)

  predicate KeyChar(c: char) { 'a' <= c <= 'z' || '0' <= c <= '9' || c == '_' || c == '-' }

  predicate Readable(item: RawItem) {
    && item.Item?
    && item.id.Some? && 1 <= |item.id.value| <= 63 && (forall c :: c in item.id.value ==> KeyChar(c))
    && item.state.Some? && item.severity.Some?
    && item.count.Some? && item.count.value >= 0
  }

  predicate ReportsActive(item: RawItem)
    requires Readable(item)
  {
    item.state.value == Active || item.state.value == PendingClear
  }

  /** Asks for an open occurrence of its key and count. */
  predicate Activates(item: RawItem) { Readable(item) && ReportsActive(item) && item.count.value > 0 }

  predicate Clears(item: RawItem) { Readable(item) && !ReportsActive(item) }

  predicate Names(item: RawItem, key: string) { Readable(item) && item.id.value == key }

  // ---- rows ------------------------------------------------------------------

  predicate OpenAt(rows: seq<Occurrence>, i: nat, key: string) {
    i < |rows| && rows[i].key == key && rows[i].status.Open?
  }

  /** The open row of a key; there is at most one. */
  function ActiveIndex(rows: seq<Occurrence>, key: string): (i: Option<nat>)
    ensures i.Some? ==> OpenAt(rows, i.value, key)
    ensures i.None? ==> forall j: nat :: !OpenAt(rows, j, key)
  {
    if rows == [] then None
    else if OpenAt(rows, |rows| - 1, key) then Some(|rows| - 1)
    else
      var earlier := ActiveIndex(rows[..|rows| - 1], key);
      assert forall j: nat :: j < |rows| - 1 ==> rows[..|rows| - 1][j] == rows[j];
      assert earlier.None? ==> forall j: nat :: OpenAt(rows, j, key) ==> OpenAt(rows[..|rows| - 1], j, key);
      earlier
  }

  predicate IsOpen(t: Table, key: string) { ActiveIndex(t.rows, key).Some? }

  predicate HasSource(rows: seq<Occurrence>, boot: int, key: string, count: int) {
    exists i :: 0 <= i < |rows| && rows[i].boot == boot && rows[i].key == key && rows[i].count == count
  }

  function Clear(t: Table, i: nat, at: Time, count: Option<int>, reason: Reason): Table
    requires i < |t.rows|
  {
    Table(t.rows[i := t.rows[i].(status := Cleared, clearedAt := Some(at), clearCount := count)],
          t.events + [WasCleared(i, t.rows[i].key, reason)])
  }

  function NewRow(item: RawItem, boot: int, at: Time): Occurrence
    requires Readable(item)
  {
    Occurrence(item.id.value, item.severity.value, Open, boot, item.count.value,
        item.value, item.threshold, at, None, None)
  }

  function Activate(t: Table, item: RawItem, boot: int, at: Time): Table
    requires Readable(item)
  {
    Table(t.rows + [NewRow(item, boot, at)], t.events + [Activated(|t.rows|, item.id.value)])
  }

  // ---- one snapshot ----------------------------------------------------------

  /** The table after some items, how many transitions they made, the keys seen and whether all were readable. */
  datatype Progress = Progress(table: Table, changes: nat, seen: set<string>, complete: bool)

  predicate SameActivation(row: Occurrence, item: RawItem, boot: int)
    requires Readable(item)
  {
    row.boot == boot && row.count == item.count.value
  }

  /** Effect of a readable item on the table and number of changes; None when the row it inserts exists already. */
  function ItemEffect(t: Table, item: RawItem, boot: int, at: Time): Option<(Table, nat)>
    requires Readable(item)
  {
    var active := ActiveIndex(t.rows, item.id.value);
    if ReportsActive(item) then
      if item.count.value == 0 then Some((t, 0))
      else if active.Some? && SameActivation(t.rows[active.value], item, boot) then
        var refreshed := t.rows[active.value].(value := item.value, threshold := item.threshold);
        Some((t.(rows := t.rows[active.value := refreshed]), 0))
      else if HasSource(t.rows, boot, item.id.value, item.count.value) then None
      else
        var closed := if active.Some? then Clear(t, active.value, at, Some(item.count.value), Superseded) else t;
        Some((Activate(closed, item, boot, at), 1))
    else if active.Some? then Some((Clear(t, active.value, at, Some(item.count.value), ThresholdNormal), 1))
    else Some((t, 0))
  }

  function ItemStep(p: Progress, item: RawItem, boot: int, at: Time): Option<Progress> {
    if !Readable(item) then Some(p.(complete := false))
    else
      match ItemEffect(p.table, item, boot, at)
      case None => None
      case Some(effect) => Some(Progress(effect.0, p.changes + effect.1, p.seen + {item.id.value}, p.complete))
  }

  function Pass(t: Table, ready: bool, items: seq<RawItem>, boot: int, at: Time): Option<Progress> {
    if items == [] then Some(Progress(t, 0, {}, ready))
    else
      match Pass(t, ready, items[..|items| - 1], boot, at)
      case None => None
      case Some(p) => ItemStep(p, items[|items| - 1], boot, at)
  }

  predicate Missing(rows: seq<Occurrence>, i: nat, seen: set<string>) {
    i < |rows| && rows[i].status.Open? && rows[i].key !in seen
  }

  /** Closes the open rows among the first n whose key was not seen. */
  function CloseMissing(t: Table, seen: set<string>, at: Time, n: nat): (closed: Table)
    requires n <= |t.rows|
    ensures |closed.rows| == |t.rows| && forall i :: n <= i < |t.rows| ==> closed.rows[i] == t.rows[i]
  {
    if n == 0 then t
    else
      var before := CloseMissing(t, seen, at, n - 1);
      if Missing(before.rows, n - 1, seen) then Clear(before, n - 1, at, None, RuleDisabledOrMissing) else before
  }

  function CountMissing(rows: seq<Occurrence>, seen: set<string>, n: nat): nat
    requires n <= |rows|
  {
    if n == 0 then 0 else CountMissing(rows, seen, n - 1) + if Missing(rows, n - 1, seen) then 1 else 0
  }

  /** The table after the snapshot and its number of changes; None when it is rejected. */
  function Ingest(t: Table, s: Snapshot, boot: int, at: Time): Option<(Table, nat)> {
    match Pass(t, s.ready, s.items, boot, at)
    case None => None
    case Some(p) => Some(Closed(p, at))
  }

  function Closed(p: Progress, at: Time): (Table, nat) {
    if p.complete
    then (CloseMissing(p.table, p.seen, at, |p.table.rows|),
        p.changes + CountMissing(p.table.rows, p.seen, |p.table.rows|))
    else (p.table, p.changes)
  }

  // ---- the table, updated in place -------------------------------------------

  class AlarmTable {
    var rows: seq<Occurrence>
    var events: seq<Event>

    constructor ()
      ensures Contents() == Table([], [])
    {
      rows, events := [], [];
    }

    function Contents(): Table
      reads this
    {
      Table(rows, events)
    }

    method ClearRow(i: nat, at: Time, count: Option<int>, reason: Reason)
      requires i < |rows|
      modifies this
      ensures Contents() == Clear(old(Contents()), i, at, count, reason)
    {
      rows := rows[i := rows[i].(status := Cleared, clearedAt := Some(at), clearCount := count)];
      events := events + [WasCleared(i, rows[i].key, reason)];
    }

    method ApplyItem(item: RawItem, boot: int, at: Time) returns (changes: Option<nat>)
      requires Readable(item)
      modifies this
      ensures match ItemEffect(old(Contents()), item, boot, at)
              case Some(effect) => Contents() == effect.0 && changes == Some(effect.1)
              case None => changes == None
    {
      var active := ActiveIndex(rows, item.id.value);
      if ReportsActive(item) {
        if item.count.value == 0 { return Some(0); }
        if active.Some? && rows[active.value].boot == boot && rows[active.value].count == item.count.value {
          rows := rows[active.value := rows[active.value].(value := item.value, threshold := item.threshold)];
          return Some(0);
        }
        if active.Some? {
          ghost var cleared := rows[active.value].(status := Cleared, clearedAt := Some(at), clearCount := item.count);
          ClearKeepsSources(rows, rows[active.value := cleared],
                            boot, item.id.value, item.count.value);
          ClearRow(active.value, at, Some(item.count.value), Superseded);
        }
        if HasSource(rows, boot, item.id.value, item.count.value) { return None; }
        rows := rows + [NewRow(item, boot, at)];
        events := events + [Activated(|rows| - 1, item.id.value)];
        return Some(1);
      }
      if active.None? { return Some(0); }
      ClearRow(active.value, at, Some(item.count.value), ThresholdNormal);
      return Some(1);
    }

    /** One item of a snapshot, the loop's variables being those of `p`. */
    method ReadItem(item: RawItem, boot: int, at: Time, total: nat, seen: set<string>, complete: bool)
      returns (failed: bool, total': nat, seen': set<string>, complete': bool)
      modifies this
      ensures match ItemStep(Progress(old(Contents()), total, seen, complete), item, boot, at)
              case Some(p) => !failed && Progress(Contents(), total', seen', complete') == p
              case None => failed
    {
      if !Readable(item) { return false, total, seen, false; }
      var effect := ApplyItem(item, boot, at);
      if effect.None? { return true, total, seen, complete; }
      return false, total + effect.value, seen + {item.id.value}, complete;
    }

    method ReadItems(s: Snapshot, boot: int, at: Time)
      returns (failed: bool, total: nat, seen: set<string>, complete: bool)
      modifies this
      ensures match Pass(old(Contents()), s.ready, s.items, boot, at)
              case Some(p) => !failed && Progress(Contents(), total, seen, complete) == p
              case None => failed
    {
      failed, total, seen, complete := false, 0, {}, s.ready;
      for i := 0 to |s.items|
        invariant !failed
        invariant Pass(old(Contents()), s.ready, s.items[..i], boot, at)
               == Some(Progress(Contents(), total, seen, complete))
      {
        assert s.items[..i + 1][..i] == s.items[..i];
        failed, total, seen, complete := ReadItem(s.items[i], boot, at, total, seen, complete);
        if failed {
          FailedPass(old(Contents()), s.ready, s.items, i + 1, boot, at);
          return;
        }
      }
      assert s.items[..|s.items|] == s.items;
    }

    /** One snapshot in one transaction; a row inserted twice rolls it back. */
    method IngestSnapshot(s: Snapshot, boot: int, at: Time) returns (changes: Option<nat>)
      modifies this
      ensures match Ingest(old(Contents()), s, boot, at)
              case Some(after) => Contents() == after.0 && changes == Some(after.1)
              case None => Contents() == old(Contents()) && changes.None?
    {
      var savedRows, savedEvents := rows, events;
      var failed, total, seen, complete := ReadItems(s, boot, at);
      if failed {
        rows, events := savedRows, savedEvents;
        return None;
      }
      if complete {
        var closed := CloseRows(seen, at);
        total := total + closed;
      }
      return Some(total);
    }

    method CloseRows(seen: set<string>, at: Time) returns (closed: nat)
      modifies this
      ensures Contents() == CloseMissing(old(Contents()), seen, at, |old(rows)|)
      ensures closed == CountMissing(old(rows), seen, |old(rows)|)
    {
      closed := 0;
      for i := 0 to |rows|
        invariant |rows| == |old(rows)| && Contents() == CloseMissing(old(Contents()), seen, at, i)
        invariant closed == CountMissing(old(rows), seen, i)
      {
        if rows[i].status.Open? && rows[i].key !in seen {
          ClearRow(i, at, None, RuleDisabledOrMissing);
          closed := closed + 1;
        }
      }
    }
  }

  predicate SameSource(a: Occurrence, b: Occurrence) { a.boot == b.boot && a.key == b.key && a.count == b.count }

  lemma ClearKeepsSources(rows: seq<Occurrence>, rows': seq<Occurrence>, boot: int, key: string, count: int)
    requires |rows| == |rows'| && forall i :: 0 <= i < |rows| ==> SameSource(rows[i], rows'[i])
    ensures HasSource(rows, boot, key, count) <==> HasSource(rows', boot, key, count)
  {
    if HasSource(rows, boot, key, count) {
      var i :| 0 <= i < |rows| && rows[i].boot == boot && rows[i].key == key && rows[i].count == count;
      assert SameSource(rows[i], rows'[i]);
    }
    if HasSource(rows', boot, key, count) {
      var i :| 0 <= i < |rows'| && rows'[i].boot == boot && rows'[i].key == key && rows'[i].count == count;
      assert SameSource(rows[i], rows'[i]);
    }
  }

  lemma {:induction false} FailedPass(t: Table, ready: bool, items: seq<RawItem>, n: nat, boot: int, at: Time)
    requires n <= |items| && Pass(t, ready, items[..n], boot, at) == None
    ensures Pass(t, ready, items, boot, at) == None
    decreases |items|
  {
    if n < |items| {
      assert items[..|items| - 1][..n] == items[..n];
      FailedPass(t, ready, items[..|items| - 1], n, boot, at);
    } else {
      assert items[..n] == items;
    }
  }

  // ---- what every snapshot keeps ---------------------------------------------

  function OpenCount(rows: seq<Occurrence>): nat {
    if rows == [] then 0 else OpenCount(rows[..|rows| - 1]) + if rows[|rows| - 1].status.Open? then 1 else 0
  }

  function ActivatedCount(events: seq<Event>): nat {
    if events == [] then 0
    else ActivatedCount(events[..|events| - 1]) + if events[|events| - 1].Activated? then 1 else 0
  }

  function ClearedCount(events: seq<Event>): nat {
    if events == [] then 0 else ClearedCount(events[..|events| - 1]) + if events[|events| - 1].WasCleared? then 1 else 0
  }

  ghost predicate OneOpen(rows: seq<Occurrence>) {
    forall i, j :: 0 <= i < j < |rows| && rows[i].status.Open? && rows[j].status.Open? ==> rows[i].key != rows[j].key
  }

  ghost predicate UniqueSources(rows: seq<Occurrence>) {
    forall i, j :: 0 <= i < j < |rows| ==> !SameSource(rows[i], rows[j])
  }

  ghost predicate Balanced(t: Table) {
    ActivatedCount(t.events) == ClearedCount(t.events) + OpenCount(t.rows)
  }

  ghost predicate Inv(t: Table) { OneOpen(t.rows) && UniqueSources(t.rows) && Balanced(t) }

  lemma {:induction false} OpenCountAfter(rows: seq<Occurrence>, i: nat, row: Occurrence)
    requires i < |rows|
    ensures OpenCount(rows[i := row])
         == OpenCount(rows) + (if row.status.Open? then 1 else 0) - (if rows[i].status.Open? then 1 else 0)
  {
    var n := |rows| - 1;
    if i < n {
      assert rows[i := row][..n] == rows[..n][i := row];
      OpenCountAfter(rows[..n], i, row);
    } else {
      assert rows[i := row][..n] == rows[..n];
    }
  }

  lemma ClearKeeps(t: Table, i: nat, at: Time, count: Option<int>, reason: Reason)
    requires Inv(t) && i < |t.rows| && t.rows[i].status.Open?
    ensures Inv(Clear(t, i, at, count, reason))
  {
    var after := Clear(t, i, at, count, reason);
    OpenCountAfter(t.rows, i, after.rows[i]);
    assert after.events[..|t.events|] == t.events;
  }

  lemma ActivateKeeps(t: Table, item: RawItem, boot: int, at: Time)
    requires Inv(t) && Readable(item) && !IsOpen(t, item.id.value)
    requires !HasSource(t.rows, boot, item.id.value, item.count.value)
    ensures Inv(Activate(t, item, boot, at))
  {
    var after := Activate(t, item, boot, at);
    assert after.rows[..|t.rows|] == t.rows && after.events[..|t.events|] == t.events;
    forall i: nat | i < |t.rows|
      ensures !SameSource(t.rows[i], after.rows[|t.rows|])
      ensures t.rows[i].status.Open? ==> t.rows[i].key != item.id.value
    {
      assert !OpenAt(t.rows, i, item.id.value);
    }
  }

  lemma ItemKeeps(t: Table, item: RawItem, boot: int, at: Time)
    requires Inv(t) && Readable(item) && ItemEffect(t, item, boot, at).Some?
    ensures Inv(ItemEffect(t, item, boot, at).value.0)
  {
    var active := ActiveIndex(t.rows, item.id.value);
    if active.Some? {
      var i := active.value;
      ClearKeeps(t, i, at, Some(item.count.value), if ReportsActive(item) then Superseded else ThresholdNormal);
      OpenCountAfter(t.rows, i, t.rows[i].(value := item.value, threshold := item.threshold));
    }
    if Activates(item) && ItemEffect(t, item, boot, at).value.1 == 1 {
      var closed := if active.Some? then Clear(t, active.value, at, Some(item.count.value), Superseded) else t;
      ClosedKeyIsNotOpen(t, item.id.value, at, Some(item.count.value), Superseded);
      if active.Some? {
        ClearKeepsSources(t.rows, closed.rows, boot, item.id.value, item.count.value);
      }
      ActivateKeeps(closed, item, boot, at);
    }
  }

  lemma ClosedKeyIsNotOpen(t: Table, key: string, at: Time, count: Option<int>, reason: Reason)
    requires OneOpen(t.rows)
    ensures var active := ActiveIndex(t.rows, key);
            !IsOpen(if active.Some? then Clear(t, active.value, at, count, reason) else t, key)
  {
  }

  lemma {:induction false} PassKeeps(t: Table, ready: bool, items: seq<RawItem>, boot: int, at: Time)
    requires Inv(t) && Pass(t, ready, items, boot, at).Some?
    ensures Inv(Pass(t, ready, items, boot, at).value.table)
  {
    if items != [] {
      var n := |items| - 1;
      PassKeeps(t, ready, items[..n], boot, at);
      if Readable(items[n]) {
        ItemKeeps(Pass(t, ready, items[..n], boot, at).value.table, items[n], boot, at);
      }
    }
  }

  lemma {:induction false} CloseMissingKeeps(t: Table, seen: set<string>, at: Time, n: nat)
    requires Inv(t) && n <= |t.rows|
    ensures Inv(CloseMissing(t, seen, at, n))
  {
    if n > 0 {
      CloseMissingKeeps(t, seen, at, n - 1);
      var before := CloseMissing(t, seen, at, n - 1);
      if Missing(before.rows, n - 1, seen) {
        ClearKeeps(before, n - 1, at, None, RuleDisabledOrMissing);
      }
    }
  }

  lemma IngestKeeps(t: Table, s: Snapshot, boot: int, at: Time)
    requires Inv(t) && Ingest(t, s, boot, at).Some?
    ensures Inv(Ingest(t, s, boot, at).value.0)
  {
    PassKeeps(t, s.ready, s.items, boot, at);
    var p := Pass(t, s.ready, s.items, boot, at).value;
    CloseMissingKeeps(p.table, p.seen, at, |p.table.rows|);
  }

  datatype Arrival = Arrival(snapshot: Snapshot, boot: int, at: Time)

  /** The table after any sequence of snapshots, rejected ones leaving it as it was. */
  function Run(arrivals: seq<Arrival>): Table {
    if arrivals == [] then Table([], [])
    else
      var before, a := Run(arrivals[..|arrivals| - 1]), arrivals[|arrivals| - 1];
      match Ingest(before, a.snapshot, a.boot, a.at)
      case Some(after) => after.0
      case None => before
  }

  /** In every run: one open occurrence per key at most, and as many activations as clearings plus open ones. */
  lemma {:induction false} EveryRunIsBalanced(arrivals: seq<Arrival>)
    ensures Inv(Run(arrivals))
  {
    if arrivals != [] {
      var before, a := Run(arrivals[..|arrivals| - 1]), arrivals[|arrivals| - 1];
      EveryRunIsBalanced(arrivals[..|arrivals| - 1]);
      if Ingest(before, a.snapshot, a.boot, a.at).Some? {
        IngestKeeps(before, a.snapshot, a.boot, a.at);
      }
    }
  }
}
