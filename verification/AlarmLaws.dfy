/** What a snapshot leaves open, what it leaves alone, when it is rejected, and what repeating it does. */
module AlarmLaws {
  import opened Basics
  import opened Alarms

  // ---- one key at a time -----------------------------------------------------

  /** Rows of the key are as they were; rows only grow and keep their keys. */
  ghost predicate KeyUntouched(t: Table, u: Table, key: string) {
    && |t.rows| <= |u.rows|
    && (forall i :: 0 <= i < |t.rows| ==>
         u.rows[i].key == t.rows[i].key && (t.rows[i].key == key ==> u.rows[i] == t.rows[i]))
    && forall i :: |t.rows| <= i < |u.rows| ==> u.rows[i].key != key
  }

  lemma UntouchedKeyIsAsOpen(t: Table, u: Table, key: string)
    requires KeyUntouched(t, u, key)
    ensures IsOpen(u, key) == IsOpen(t, key)
  {
    var before, after := ActiveIndex(t.rows, key), ActiveIndex(u.rows, key);
    if before.Some? {
      assert OpenAt(u.rows, before.value, key);
    }
    if after.Some? {
      assert OpenAt(t.rows, after.value, key);
    }
  }

  lemma OtherKeysUntouched(t: Table, item: RawItem, boot: int, at: Time, key: string)
    requires Readable(item) && ItemEffect(t, item, boot, at).Some? && key != item.id.value
    ensures KeyUntouched(t, ItemEffect(t, item, boot, at).value.0, key)
  {
  }

  /** A readable item leaves its key open if it asks for it, or reports it active and it was open. */
  lemma ItemOpens(t: Table, item: RawItem, boot: int, at: Time)
    requires OneOpen(t.rows) && Readable(item) && ItemEffect(t, item, boot, at).Some?
    ensures IsOpen(ItemEffect(t, item, boot, at).value.0, item.id.value)
        <==> (Activates(item) || (ReportsActive(item) && IsOpen(t, item.id.value)))
  {
    var key, after := item.id.value, ItemEffect(t, item, boot, at).value.0;
    var active := ActiveIndex(t.rows, key);
    if Activates(item) {
      if active.Some? && SameActivation(t.rows[active.value], item, boot) {
        assert OpenAt(after.rows, active.value, key);
      } else {
        assert OpenAt(after.rows, |after.rows| - 1, key);
      }
    } else if !ReportsActive(item) {
      ClosedKeyIsNotOpen(t, key, at, Some(item.count.value), ThresholdNormal);
    }
  }

  /** Whether a key is open after some items, judged from the items alone. */
  function OpenAfter(items: seq<RawItem>, key: string, before: bool): bool {
    if items == [] then before
    else
      var last, earlier := items[|items| - 1], OpenAfter(items[..|items| - 1], key, before);
      if Names(last, key) then Activates(last) || (ReportsActive(last) && earlier) else earlier
  }

  lemma {:induction false} PassOpens(t: Table, ready: bool, items: seq<RawItem>, boot: int, at: Time, key: string)
    requires Inv(t) && Pass(t, ready, items, boot, at).Some?
    ensures IsOpen(Pass(t, ready, items, boot, at).value.table, key) == OpenAfter(items, key, IsOpen(t, key))
  {
    if items != [] {
      var n := |items| - 1;
      var p := Pass(t, ready, items[..n], boot, at).value;
      PassOpens(t, ready, items[..n], boot, at, key);
      PassKeeps(t, ready, items[..n], boot, at);
      if Readable(items[n]) {
        if items[n].id.value == key {
          ItemOpens(p.table, items[n], boot, at);
        } else {
          OtherKeysUntouched(p.table, items[n], boot, at, key);
          UntouchedKeyIsAsOpen(p.table, ItemEffect(p.table, items[n], boot, at).value.0, key);
        }
      }
    }
  }

  ghost predicate Seen(items: seq<RawItem>, key: string) { exists i :: 0 <= i < |items| && Names(items[i], key) }

  ghost predicate AllReadable(items: seq<RawItem>) { forall i :: 0 <= i < |items| ==> Readable(items[i]) }

  lemma {:induction false} PassSees(t: Table, ready: bool, items: seq<RawItem>, boot: int, at: Time)
    requires Pass(t, ready, items, boot, at).Some?
    ensures var p := Pass(t, ready, items, boot, at).value;
            && (p.complete <==> ready && AllReadable(items))
            && forall key :: key in p.seen <==> Seen(items, key)
  {
    if items != [] {
      var n := |items| - 1;
      PassSees(t, ready, items[..n], boot, at);
      assert forall i :: 0 <= i < n ==> items[..n][i] == items[i];
      forall key
        ensures Seen(items, key) <==> Seen(items[..n], key) || Names(items[n], key)
      {
        if Seen(items[..n], key) {
          var i :| 0 <= i < n && Names(items[..n][i], key);
          assert Names(items[i], key);
        }
        if Seen(items, key) && !Names(items[n], key) {
          var i :| 0 <= i < |items| && Names(items[i], key);
          assert Names(items[..n][i], key);
        }
      }
    }
  }

  // ---- closing what disappeared ----------------------------------------------

  lemma {:induction false} ClosingCloses(t: Table, seen: set<string>, at: Time, n: nat)
    requires n <= |t.rows|
    ensures var u := CloseMissing(t, seen, at, n);
            && (forall i :: 0 <= i < |t.rows| ==>
                 u.rows[i].key == t.rows[i].key && (t.rows[i].key in seen ==> u.rows[i] == t.rows[i]))
            && forall i :: 0 <= i < n && t.rows[i].key !in seen ==> u.rows[i].status.Cleared?
  {
    if n > 0 {
      ClosingCloses(t, seen, at, n - 1);
    }
  }

  lemma {:induction false} NothingMissing(t: Table, seen: set<string>, at: Time, n: nat)
    requires n <= |t.rows| && forall i: nat :: i < n ==> !Missing(t.rows, i, seen)
    ensures CloseMissing(t, seen, at, n) == t && CountMissing(t.rows, seen, n) == 0
  {
    if n > 0 {
      NothingMissing(t, seen, at, n - 1);
    }
  }

  lemma ClosingKeepsSeen(t: Table, seen: set<string>, at: Time, key: string)
    ensures IsOpen(CloseMissing(t, seen, at, |t.rows|), key) <==> key in seen && IsOpen(t, key)
  {
    var u := CloseMissing(t, seen, at, |t.rows|);
    ClosingCloses(t, seen, at, |t.rows|);
    var before, after := ActiveIndex(t.rows, key), ActiveIndex(u.rows, key);
    if before.Some? && key in seen {
      assert OpenAt(u.rows, before.value, key);
    }
    if after.Some? {
      assert u.rows[after.value].key in seen;
      assert OpenAt(t.rows, after.value, key);
    }
  }

  // ---- what a snapshot leaves open -------------------------------------------

  ghost predicate DistinctKeys(items: seq<RawItem>) {
    forall i, j :: 0 <= i < j < |items| && Readable(items[i]) && Readable(items[j]) ==>
        items[i].id.value != items[j].id.value
  }

  lemma {:induction false} OpenAfterDistinct(items: seq<RawItem>, key: string, before: bool, i: nat)
    requires DistinctKeys(items) && i < |items| && Names(items[i], key)
    ensures OpenAfter(items, key, before) == (Activates(items[i]) || (ReportsActive(items[i]) && before))
  {
    var n := |items| - 1;
    if i < n {
      OpenAfterDistinct(items[..n], key, before, i);
    } else {
      assert forall j :: 0 <= j < n ==> !Names(items[..n][j], key);
      OpenAfterUnseen(items[..n], key, before);
    }
  }

  lemma {:induction false} OpenAfterUnseen(items: seq<RawItem>, key: string, before: bool)
    requires forall j :: 0 <= j < |items| ==> !Names(items[j], key)
    ensures OpenAfter(items, key, before) == before
  {
    if items != [] {
      OpenAfterUnseen(items[..|items| - 1], key, before);
    }
  }

  /** Reported active with a count, or with count zero and open already. */
  predicate Reported(item: RawItem, key: string, before: bool) {
    Names(item, key) && (Activates(item) || (ReportsActive(item) && before))
  }

  /** After a complete ready snapshot with distinct keys, the open occurrences are exactly the reported ones. */
  lemma OpenAreExactlyReported(t: Table, s: Snapshot, boot: int, at: Time, key: string)
    requires Inv(t) && Ingest(t, s, boot, at).Some?
    requires s.ready && AllReadable(s.items) && DistinctKeys(s.items)
    ensures IsOpen(Ingest(t, s, boot, at).value.0, key)
        <==> exists i :: 0 <= i < |s.items| && Reported(s.items[i], key, IsOpen(t, key))
  {
    var p := Pass(t, s.ready, s.items, boot, at).value;
    PassSees(t, s.ready, s.items, boot, at);
    PassOpens(t, s.ready, s.items, boot, at, key);
    ClosingKeepsSeen(p.table, p.seen, at, key);
    if Seen(s.items, key) {
      var i :| 0 <= i < |s.items| && Names(s.items[i], key);
      OpenAfterDistinct(s.items, key, IsOpen(t, key), i);
      assert OpenAfter(s.items, key, IsOpen(t, key)) ==> Reported(s.items[i], key, IsOpen(t, key));
      forall j | 0 <= j < |s.items| && Reported(s.items[j], key, IsOpen(t, key))
        ensures j == i
      {
      }
    }
  }

  lemma {:induction false} PassTouchesNamedKeys(
    t: Table, ready: bool, items: seq<RawItem>, boot: int, at: Time, key: string)
    requires Pass(t, ready, items, boot, at).Some? && forall i :: 0 <= i < |items| ==> !Names(items[i], key)
    ensures KeyUntouched(t, Pass(t, ready, items, boot, at).value.table, key)
  {
    if items != [] {
      var n := |items| - 1;
      PassTouchesNamedKeys(t, ready, items[..n], boot, at, key);
      if Readable(items[n]) {
        assert !Names(items[n], key);
        OtherKeysUntouched(Pass(t, ready, items[..n], boot, at).value.table, items[n], boot, at, key);
      }
    }
  }

  /** A snapshot that is not complete leaves alone every key it does not name. */
  lemma IncompleteNeverClosesAbsent(t: Table, s: Snapshot, boot: int, at: Time, key: string)
    requires Ingest(t, s, boot, at).Some? && !(s.ready && AllReadable(s.items)) && !Seen(s.items, key)
    ensures KeyUntouched(t, Ingest(t, s, boot, at).value.0, key)
  {
    PassSees(t, s.ready, s.items, boot, at);
    forall i | 0 <= i < |s.items|
      ensures !Names(s.items[i], key)
    {
    }
    PassTouchesNamedKeys(t, s.ready, s.items, boot, at, key);
  }

  // ---- when a snapshot is rejected -------------------------------------------

  /** The item would insert an activation that is recorded already, and is not the open one. */
  predicate Conflicts(t: Table, item: RawItem, boot: int) {
    && Activates(item) && HasSource(t.rows, boot, item.id.value, item.count.value)
    && var active := ActiveIndex(t.rows, item.id.value);
       !(active.Some? && SameActivation(t.rows[active.value], item, boot))
  }

  lemma UntouchedConflict(t: Table, u: Table, item: RawItem, boot: int)
    requires OneOpen(t.rows) && OneOpen(u.rows) && Readable(item) && KeyUntouched(t, u, item.id.value)
    ensures Conflicts(u, item, boot) == Conflicts(t, item, boot)
  {
    var key, count := item.id.value, item.count.value;
    UntouchedKeyIsAsOpen(t, u, key);
    if HasSource(t.rows, boot, key, count) {
      var i :| 0 <= i < |t.rows| && t.rows[i].boot == boot && t.rows[i].key == key && t.rows[i].count == count;
      assert u.rows[i] == t.rows[i];
    }
    if IsOpen(t, key) {
      var i := ActiveIndex(t.rows, key).value;
      assert u.rows[i] == t.rows[i] && OpenAt(u.rows, i, key);
    }
  }

  /** With distinct keys, each item is judged as if it came first. */
  lemma {:induction false} PassFailsOnConflict(t: Table, ready: bool, items: seq<RawItem>, boot: int, at: Time)
    requires Inv(t) && DistinctKeys(items)
    ensures Pass(t, ready, items, boot, at).None? <==> exists i :: 0 <= i < |items| && Conflicts(t, items[i], boot)
  {
    if items != [] {
      var n := |items| - 1;
      PassFailsOnConflict(t, ready, items[..n], boot, at);
      assert forall i :: 0 <= i < n ==> items[..n][i] == items[i];
      var before := Pass(t, ready, items[..n], boot, at);
      if before.Some? {
        PassKeeps(t, ready, items[..n], boot, at);
        if Readable(items[n]) {
          PassTouchesNamedKeys(t, ready, items[..n], boot, at, items[n].id.value);
          UntouchedConflict(t, before.value.table, items[n], boot);
        }
        assert forall i :: 0 <= i < n ==> !Conflicts(t, items[i], boot);
      }
    }
  }

  /** A snapshot with distinct keys is rejected exactly when an item repeats a closed or superseded activation. */
  lemma RejectedIff(t: Table, s: Snapshot, boot: int, at: Time)
    requires Inv(t) && DistinctKeys(s.items)
    ensures Ingest(t, s, boot, at).None? <==> exists i :: 0 <= i < |s.items| && Conflicts(t, s.items[i], boot)
  {
    PassFailsOnConflict(t, s.ready, s.items, boot, at);
  }

  // ---- repeating a snapshot --------------------------------------------------

  ghost predicate Recorded(rows: seq<Occurrence>, item: RawItem, boot: int) {
    Activates(item) ==> HasSource(rows, boot, item.id.value, item.count.value)
  }

  /** Sources are never forgotten. */
  ghost predicate KeepsSources(rows: seq<Occurrence>, rows': seq<Occurrence>) {
    |rows| <= |rows'| && forall i :: 0 <= i < |rows| ==> SameSource(rows[i], rows'[i])
  }

  lemma StillRecorded(rows: seq<Occurrence>, rows': seq<Occurrence>, item: RawItem, boot: int)
    requires KeepsSources(rows, rows') && Recorded(rows, item, boot)
    ensures Recorded(rows', item, boot)
  {
    if Activates(item) {
      var i :| 0 <= i < |rows| && rows[i].boot == boot && rows[i].key == item.id.value
          && rows[i].count == item.count.value;
      assert SameSource(rows[i], rows'[i]);
    }
  }

  lemma ItemIsRecorded(t: Table, item: RawItem, boot: int, at: Time)
    requires Readable(item) && ItemEffect(t, item, boot, at).Some?
    ensures var after := ItemEffect(t, item, boot, at).value.0;
            KeepsSources(t.rows, after.rows) && Recorded(after.rows, item, boot)
  {
    var after := ItemEffect(t, item, boot, at).value.0;
    var active := ActiveIndex(t.rows, item.id.value);
    if Activates(item) {
      if active.Some? && SameActivation(t.rows[active.value], item, boot) {
        assert SameSource(after.rows[active.value], t.rows[active.value]);
      } else {
        assert after.rows[|after.rows| - 1] == NewRow(item, boot, at);
      }
    }
  }

  lemma {:induction false} PassRecords(t: Table, ready: bool, items: seq<RawItem>, boot: int, at: Time)
    requires Pass(t, ready, items, boot, at).Some?
    ensures var rows := Pass(t, ready, items, boot, at).value.table.rows;
            KeepsSources(t.rows, rows) && forall i :: 0 <= i < |items| ==> Recorded(rows, items[i], boot)
  {
    if items != [] {
      var n := |items| - 1;
      PassRecords(t, ready, items[..n], boot, at);
      var before, after := Pass(t, ready, items[..n], boot, at).value.table,
          Pass(t, ready, items, boot, at).value.table;
      if Readable(items[n]) {
        ItemIsRecorded(before, items[n], boot, at);
      }
      forall i | 0 <= i < |items|
        ensures Recorded(after.rows, items[i], boot)
      {
        if i < n {
          assert items[..n][i] == items[i];
          StillRecorded(before.rows, after.rows, items[i], boot);
        }
      }
    }
  }

  /** Once a key is cleared and no later item asks for it, it is not open. */
  lemma {:induction false} ClearedStaysClosed(items: seq<RawItem>, key: string, before: bool, n: nat)
    requires n < |items| && Names(items[n], key) && Clears(items[n])
    requires forall i :: n < i < |items| && Activates(items[i]) ==> !Names(items[i], key)
    ensures !OpenAfter(items, key, before)
  {
    var m := |items| - 1;
    if n < m {
      assert forall i :: 0 <= i < m ==> items[..m][i] == items[i];
      ClearedStaysClosed(items[..m], key, before, n);
    }
  }

  /** Nothing happened yet on the second pass: no event, no change, same open keys, same sources. */
  ghost predicate Quiet(t: Table, p: Progress) {
    && p.changes == 0 && p.table.events == t.events && |p.table.rows| == |t.rows|
    && forall i :: 0 <= i < |t.rows| ==>
         && SameSource(t.rows[i], p.table.rows[i]) && p.table.rows[i].status == t.rows[i].status
  }

  /** The second pass cleared a key that a later item will ask for again. */
  ghost predicate Doomed(t: Table, p: Progress, items: seq<RawItem>, m: nat, n: nat)
    requires n < m <= |items|
  {
    && Clears(items[n]) && IsOpen(t, items[n].id.value) && !IsOpen(p.table, items[n].id.value)
    && KeepsSources(t.rows, p.table.rows)
    && forall i :: n < i < m && Activates(items[i]) ==> !Names(items[i], items[n].id.value)
  }

  lemma QuietKeyIsAsOpen(t: Table, p: Progress, key: string)
    requires Quiet(t, p)
    ensures IsOpen(p.table, key) == IsOpen(t, key)
  {
    var before, after := ActiveIndex(t.rows, key), ActiveIndex(p.table.rows, key);
    if before.Some? {
      assert OpenAt(p.table.rows, before.value, key);
    }
    if after.Some? {
      assert OpenAt(t.rows, after.value, key);
    }
  }

  lemma QuietItem(t: Table, p: Progress, item: RawItem, boot: int, at: Time)
    requires OneOpen(p.table.rows) && Quiet(t, p) && Recorded(t.rows, item, boot) && ItemStep(p, item, boot, at).Some?
    ensures var q := ItemStep(p, item, boot, at).value;
            || Quiet(t, q)
            || (Clears(item) && IsOpen(t, item.id.value) && !IsOpen(q.table, item.id.value)
                && KeepsSources(t.rows, q.table.rows))
  {
    StillRecorded(t.rows, p.table.rows, item, boot);
    if Readable(item) {
      QuietKeyIsAsOpen(t, p, item.id.value);
      ItemOpens(p.table, item, boot, at);
    }
  }

  lemma DoomedItem(t: Table, p: Progress, items: seq<RawItem>, m: nat, n: nat, boot: int, at: Time)
    requires n < m < |items| && Doomed(t, p, items, m, n) && OneOpen(p.table.rows)
    requires Recorded(t.rows, items[m], boot) && ItemStep(p, items[m], boot, at).Some?
    ensures Doomed(t, ItemStep(p, items[m], boot, at).value, items, m + 1, n)
  {
    var item, key := items[m], items[n].id.value;
    StillRecorded(t.rows, p.table.rows, item, boot);
    if Readable(item) {
      ItemIsRecorded(p.table, item, boot, at);
      if item.id.value == key {
        ItemOpens(p.table, item, boot, at);
      } else {
        OtherKeysUntouched(p.table, item, boot, at, key);
        UntouchedKeyIsAsOpen(p.table, ItemEffect(p.table, item, boot, at).value.0, key);
      }
    }
  }

  lemma {:induction false} SecondPass(t: Table, ready: bool, items: seq<RawItem>, boot: int, at: Time, m: nat)
    requires Inv(t) && m <= |items| && forall i :: 0 <= i < |items| ==> Recorded(t.rows, items[i], boot)
    requires Pass(t, ready, items[..m], boot, at).Some?
    ensures var p := Pass(t, ready, items[..m], boot, at).value;
            Quiet(t, p) || exists n :: 0 <= n < m && Doomed(t, p, items, m, n)
  {
    if m > 0 {
      assert items[..m][..m - 1] == items[..m - 1];
      SecondPass(t, ready, items, boot, at, m - 1);
      PassKeeps(t, ready, items[..m - 1], boot, at);
      var p := Pass(t, ready, items[..m - 1], boot, at).value;
      if Quiet(t, p) {
        QuietItem(t, p, items[m - 1], boot, at);
        var q := ItemStep(p, items[m - 1], boot, at).value;
        assert Quiet(t, q) || Doomed(t, q, items, m, m - 1);
      } else {
        var n :| 0 <= n < m - 1 && Doomed(t, p, items, m - 1, n);
        DoomedItem(t, p, items, m - 1, n, boot, at);
      }
    }
  }

  /**
   Whatever the snapshot, repeating it right after it was accepted adds no event: it
   changes nothing or is rejected.
   */
  lemma RepeatedSnapshotAddsNoEvent(t: Table, s: Snapshot, boot: int, at: Time, later: Time)
    requires Inv(t) && Ingest(t, s, boot, at).Some?
    ensures var once := Ingest(t, s, boot, at).value.0;
            var twice := Ingest(once, s, boot, later);
            twice.Some? ==> twice.value.0.events == once.events && twice.value.1 == 0
  {
    var once := Ingest(t, s, boot, at).value.0;
    if Ingest(once, s, boot, later).Some? {
      IngestKeeps(t, s, boot, at);
      FirstPassSettles(t, s, boot, at);
      assert s.items[..|s.items|] == s.items;
      SecondPass(once, s.ready, s.items, boot, later, |s.items|);
      var p := Pass(once, s.ready, s.items, boot, later).value;
      PassSees(once, s.ready, s.items, boot, later);
      forall n | 0 <= n < |s.items|
        ensures !Doomed(once, p, s.items, |s.items|, n)
      {
        if && Clears(s.items[n])
           && forall i :: n < i < |s.items| && Activates(s.items[i]) ==> !Names(s.items[i], s.items[n].id.value)
        {
          ClearedStaysClosed(s.items, s.items[n].id.value, IsOpen(t, s.items[n].id.value), n);
        }
      }
      if p.complete {
        forall i: nat | i < |p.table.rows|
          ensures !Missing(p.table.rows, i, p.seen)
        {
          if p.table.rows[i].status.Open? {
            assert OpenAt(once.rows, i, once.rows[i].key);
            assert IsOpen(once, once.rows[i].key);
          }
        }
        NothingMissing(p.table, p.seen, later, |p.table.rows|);
      }
    }
  }

  /** What the first ingestion leaves behind, as the second will see it. */
  lemma FirstPassSettles(t: Table, s: Snapshot, boot: int, at: Time)
    requires Inv(t) && Ingest(t, s, boot, at).Some?
    ensures var once := Ingest(t, s, boot, at).value.0;
            && (forall i :: 0 <= i < |s.items| ==> Recorded(once.rows, s.items[i], boot))
            && (forall key :: IsOpen(once, key) ==> OpenAfter(s.items, key, IsOpen(t, key)))
            && (s.ready && AllReadable(s.items) ==> forall key :: IsOpen(once, key) ==> Seen(s.items, key))
  {
    var p, once := Pass(t, s.ready, s.items, boot, at).value, Ingest(t, s, boot, at).value.0;
    PassRecords(t, s.ready, s.items, boot, at);
    PassSees(t, s.ready, s.items, boot, at);
    ClosingCloses(p.table, p.seen, at, |p.table.rows|);
    ClosingKeepsSources(p.table, p.seen, at, |p.table.rows|);
    forall i | 0 <= i < |s.items|
      ensures Recorded(once.rows, s.items[i], boot)
    {
      StillRecorded(p.table.rows, once.rows, s.items[i], boot);
    }
    forall key
      ensures IsOpen(once, key) ==> OpenAfter(s.items, key, IsOpen(t, key)) && (p.complete ==> Seen(s.items, key))
    {
      PassOpens(t, s.ready, s.items, boot, at, key);
      ClosingKeepsSeen(p.table, p.seen, at, key);
    }
  }

  lemma {:induction false} ClosingKeepsSources(t: Table, seen: set<string>, at: Time, n: nat)
    requires n <= |t.rows|
    ensures KeepsSources(t.rows, CloseMissing(t, seen, at, n).rows)
  {
    if n > 0 {
      ClosingKeepsSources(t, seen, at, n - 1);
    }
  }
}
