/**
 The read side: history windows of the present owner, archived windows of the
 former owners, and why the write side makes them partition every reading.
 */
module TransferArchive {
  import opened Basics
  import opened TransferModel
  import opened TransferSafety

  const DAY: Time := 24 * 60 * MINUTE
  const HISTORY_MAX: Time := 365 * DAY
  const DETAILED_HISTORY_MAX: Time := 90 * DAY

  datatype Epoch = Epoch(archiveId: nat, owner: UserId, start: Time, end: Time, transferId: Option<nat>)
  datatype Window = Window(start: Time, end: Time, transferId: Option<nat>)
  datatype Archive = Archive(archiveId: nat, start: Time, end: Time, channels: set<string>)

  // ---- the epochs of a chain -----------------------------------------------

  /** Epoch k of the completed rows: from the previous cutover to its own reset request. */
  function EpochAt(created: Time, rows: seq<Transfer>, k: nat): Epoch
    requires k < |rows|
  {
    Epoch(rows[k].id, rows[k].previousOwner, EpochStart(created, rows, k), rows[k].requestedAt,
          if k == 0 then None else Some(rows[k - 1].id))
  }

  function Epochs(created: Time, rows: seq<Transfer>): seq<Epoch> {
    seq(|rows|, k requires 0 <= k < |rows| => EpochAt(created, rows, k))
  }

  predicate RowConsistent(created: Time, rows: seq<Transfer>, k: nat)
    requires k < |rows|
  {
    && rows[k].effectiveAt.Some?
    && (k > 0 ==> rows[k].previousOwner == rows[k - 1].nextOwner)
    && EpochStart(created, rows, k) < rows[k].requestedAt < rows[k].notBefore <= rows[k].effectiveAt.value
  }

  ghost predicate ChainConsistent(created: Time, rows: seq<Transfer>) {
    forall k :: 0 <= k < |rows| ==> RowConsistent(created, rows, k)
  }

  ghost function OwnershipEpochs(device: Option<Device>, transfers: seq<Transfer>): Result<seq<Epoch>, Rejection> {
    var rows := CompletedInOrder(transfers);
    if device.None? || rows == [] then Err(ArchiveMissing)
    else if !ChainConsistent(device.value.createdAt, rows) then Err(ArchiveInconsistent)
    else Ok(Epochs(device.value.createdAt, rows))
  }

  method CompletedOwnershipEpochs(device: Option<Device>, transfers: seq<Transfer>)
    returns (result: Result<seq<Epoch>, Rejection>)
    ensures result == OwnershipEpochs(device, transfers)
  {
    if device.None? { return Err(ArchiveMissing); }
    var rows := CompletedInOrder(transfers);
    if rows == [] { return Err(ArchiveMissing); }
    ghost var created := device.value.createdAt;
    var expectedOwner := rows[0].previousOwner;
    var windowStart := device.value.createdAt;
    var transferId: Option<nat> := None;
    var epochs: seq<Epoch> := [];
    for i := 0 to |rows|
      invariant forall k :: 0 <= k < i ==> RowConsistent(created, rows, k)
      invariant epochs == Epochs(created, rows)[..i]
      invariant windowStart == EpochStart(created, rows, i)
      invariant expectedOwner == if i == 0 then rows[0].previousOwner else rows[i - 1].nextOwner
      invariant transferId == if i == 0 then None else Some(rows[i - 1].id)
    {
      var t := rows[i];
      if || t.effectiveAt.None?
         || t.previousOwner != expectedOwner
         || t.requestedAt <= windowStart
         || t.notBefore <= t.requestedAt
         || t.effectiveAt.value < t.notBefore
      {
        assert !RowConsistent(created, rows, i);
        return Err(ArchiveInconsistent);
      }
      assert Epochs(created, rows)[..i + 1] == Epochs(created, rows)[..i] + [EpochAt(created, rows, i)];
      epochs := epochs + [Epoch(t.id, t.previousOwner, windowStart, t.requestedAt, transferId)];
      expectedOwner := t.nextOwner;
      windowStart := t.effectiveAt.value;
      transferId := Some(t.id);
    }
    assert epochs == Epochs(created, rows);
    return Ok(epochs);
  }

  // ---- one former owner's window -------------------------------------------

  function Max(a: Time, b: Time): Time { if a < b then b else a }
  function Min(a: Time, b: Time): Time { if b < a then b else a }

  function Overlap(e: Epoch, user: UserId, from: Time, to: Time): Option<Window> {
    if user == e.owner && Max(from, e.start) < Min(to, e.end)
    then Some(Window(Max(from, e.start), Min(to, e.end), e.transferId))
    else None
  }

  function Overlaps(epochs: seq<Epoch>, user: UserId, from: Time, to: Time): seq<Window> {
    if epochs == [] then []
    else
      var overlap := Overlap(epochs[|epochs| - 1], user, from, to);
      Overlaps(epochs[..|epochs| - 1], user, from, to) + if overlap.Some? then [overlap.value] else []
  }

  ghost function FormerWindow(
    device: Option<Device>, transfers: seq<Transfer>, user: UserId, from: Time, to: Time): Result<Window, Rejection>
  {
    match OwnershipEpochs(device, transfers)
    case Err(e) => Err(e)
    case Ok(epochs) =>
      var overlaps := Overlaps(epochs, user, from, to);
      if |overlaps| == 1 then Ok(overlaps[0]) else Err(ArchiveMissing)
  }

  method FormerOwnerWindow(device: Option<Device>, transfers: seq<Transfer>, user: UserId, from: Time, to: Time)
    returns (result: Result<Window, Rejection>)
    ensures result == FormerWindow(device, transfers, user, from, to)
  {
    var found := CompletedOwnershipEpochs(device, transfers);
    if found.Err? { return Err(found.error); }
    var epochs := found.value;
    var overlaps: seq<Window> := [];
    for i := 0 to |epochs|
      invariant overlaps == Overlaps(epochs[..i], user, from, to)
    {
      assert epochs[..i + 1][..i] == epochs[..i];
      var e := epochs[i];
      if user == e.owner {
        var start := Max(from, e.start);
        var end := Min(to, e.end);
        if start < end { overlaps := overlaps + [Window(start, end, e.transferId)]; }
      }
    }
    assert epochs[..|epochs|] == epochs;
    if |overlaps| != 1 { return Err(ArchiveMissing); }
    return Ok(overlaps[0]);
  }

  // ---- the list of archives ------------------------------------------------

  function ChannelsOf(readings: seq<Reading>, owner: UserId, epoch: Option<nat>): set<string> {
    set r | r in readings && r.owner == owner && r.epoch == epoch :: r.channel
  }

  /** This account's archives, latest period first. */
  function ArchivesOf(epochs: seq<Epoch>, readings: seq<Reading>, user: UserId): seq<Archive> {
    if epochs == [] then []
    else
      var e := epochs[|epochs| - 1];
      var earlier := ArchivesOf(epochs[..|epochs| - 1], readings, user);
      if e.owner == user then [Archive(e.archiveId, e.start, e.end, ChannelsOf(readings, user, e.transferId))] + earlier
      else earlier
  }

  ghost function Archives(device: Option<Device>, transfers: seq<Transfer>, readings: seq<Reading>, user: UserId)
    : Result<seq<Archive>, Rejection>
  {
    match OwnershipEpochs(device, transfers)
    case Err(e) => Err(e)
    case Ok(epochs) => Ok(ArchivesOf(epochs, readings, user))
  }

  /** Insertion keeping the list sorted by decreasing end, later arrivals after equals. */
  function InsertByEnd(a: Archive, list: seq<Archive>): seq<Archive> {
    if list == [] then [a]
    else if list[0].end < a.end then [a] + list
    else [list[0]] + InsertByEnd(a, list[1..])
  }

  method ListArchives(device: Option<Device>, transfers: seq<Transfer>, readings: seq<Reading>, user: UserId)
    returns (result: Result<seq<Archive>, Rejection>)
    ensures result == Archives(device, transfers, readings, user)
  {
    var found := CompletedOwnershipEpochs(device, transfers);
    if found.Err? { return Err(found.error); }
    var epochs := found.value;
    var archives: seq<Archive> := [];
    for i := 0 to |epochs|
      invariant archives == ArchivesOf(epochs[..i], readings, user)
      invariant forall a :: a in archives ==> i > 0 && a.end <= epochs[i - 1].end
    {
      assert epochs[..i + 1][..i] == epochs[..i];
      var e := epochs[i];
      assert i > 0 ==> epochs[i - 1].end < e.end by {
        if i > 0 {
          var rows := CompletedInOrder(transfers);
          assert RowConsistent(device.value.createdAt, rows, i) && RowConsistent(device.value.createdAt, rows, i - 1);
        }
      }
      if e.owner == user {
        archives := InsertByEnd(Archive(e.archiveId, e.start, e.end, ChannelsOf(readings, user, e.transferId)),
            archives);
      }
    }
    assert epochs[..|epochs|] == epochs;
    return Ok(archives);
  }

  // ---- the present owner's window ------------------------------------------

  ghost function PendingRow(transfers: seq<Transfer>): Option<Transfer> {
    if HasPending(transfers) then
      var k :| 0 <= k < |transfers| && transfers[k].state == Pending;
      Some(transfers[k])
    else None
  }

  ghost function BoundedHistoryPeriod(transfers: seq<Transfer>, user: UserId, role: Role, from: Time, to: Time)
    : Result<(Time, Time), Rejection>
  {
    var latest := LatestCompleted(transfers);
    if latest.Some? && (role != Owner || latest.value.nextOwner != user) then Err(Forbidden)
    else if latest.Some? && latest.value.effectiveAt.None? then Err(Conflict)
    else
      var start := if latest.Some? then Max(from, latest.value.effectiveAt.value) else from;
      var pending := PendingRow(transfers);
      var end := if pending.Some? then Min(to, pending.value.requestedAt) else to;
      if start >= end then Err(Forbidden) else Ok((start, end))
  }

  /** The history route shows reading r to `user` for the requested period. */
  ghost predicate CurrentRouteServes(db: Db, user: UserId, r: Reading, from: Time, to: Time) {
    && from < to <= from + HISTORY_MAX
    && user in db.members
    && db.members[user] == Owner
    && var bounds := BoundedHistoryPeriod(db.transfers, user, Owner, from, to);
       var latest := LatestCompleted(db.transfers);
       && bounds.Ok?
       && bounds.value.1 - bounds.value.0 <= DETAILED_HISTORY_MAX
       && bounds.value.0 <= r.measuredAt < bounds.value.1
       && r.owner == user
       && r.epoch == if latest.Some? then Some(latest.value.id) else None
  }

  /** The archive route shows reading r to `user` for the requested period. */
  ghost predicate ArchiveRouteServes(db: Db, user: UserId, r: Reading, from: Time, to: Time) {
    && from < to <= from + HISTORY_MAX
    && var window := FormerWindow(db.device, db.transfers, user, from, to);
       && window.Ok?
       && window.value.end - window.value.start <= DETAILED_HISTORY_MAX
       && window.value.start <= r.measuredAt < window.value.end
       && r.owner == user
       && r.epoch == window.value.transferId
  }

  // ---- the chain check never fails -----------------------------------------

  lemma ChainIsConsistent(created: Time, ts: seq<Transfer>)
    requires ChainOk(created, ts)
    ensures CompletedInOrder(ts) == ts[..CurrentEpoch(ts)]
    ensures ChainConsistent(created, ts[..CurrentEpoch(ts)])
  {
    CompletedAreThePrefix(created, ts);
    PendingIsLast(created, ts);
    forall k | 0 <= k < CurrentEpoch(ts)
      ensures RowConsistent(created, ts[..CurrentEpoch(ts)], k)
    {
      assert LinkOk(created, ts, k);
    }
  }

  lemma OpenIffAnyCompleted(db: Db, clock: Time)
    requires Inv(db, clock)
    ensures OwnershipEpochs(db.device, db.transfers) != Err(ArchiveInconsistent)
    ensures OwnershipEpochs(db.device, db.transfers).Ok?
       <==> exists k :: 0 <= k < |db.transfers| && db.transfers[k].state == Completed
  {
    if db.device.Some? {
      var ts := db.transfers;
      ChainIsConsistent(db.device.value.createdAt, ts);
      PendingIsLast(db.device.value.createdAt, ts);
      assert CurrentEpoch(ts) > 0 ==> ts[CurrentEpoch(ts) - 1].state == Completed;
    }
  }

  /** In every run the archive is served or absent, never "inconsistent". */
  lemma ArchiveNeverInconsistent(users: map<UserId, User>, steps: seq<Step>, clock: Time)
    requires TimelyRun(steps, clock)
    ensures var db := Run(Empty(users), steps);
            && OwnershipEpochs(db.device, db.transfers) != Err(ArchiveInconsistent)
            && OwnershipEpochs(db.device, db.transfers).Ok? ==
               (exists k :: 0 <= k < |db.transfers| && db.transfers[k].state == Completed)
  {
    EveryRunIsSafe(users, steps, clock);
    OpenIffAnyCompleted(Run(Empty(users), steps), EndClock(steps, clock));
  }

  /** The present owner is the last next owner of the chain, through a freeze too. */
  lemma ChainEndsAtTheOwner(users: map<UserId, User>, steps: seq<Step>, clock: Time)
    requires TimelyRun(steps, clock)
    ensures var db := Run(Empty(users), steps);
            var last := LatestCompleted(db.transfers);
            last.Some? ==> OwnerOf(db.members) == Some(last.value.nextOwner)
  {
    EveryRunIsSafe(users, steps, clock);
    var db := Run(Empty(users), steps);
    if db.device.Some? {
      var created, n := db.device.value.createdAt, |db.transfers|;
      CompletedAreThePrefix(created, db.transfers);
      assert n > 0 ==> LinkOk(created, db.transfers, n - 1);
    }
  }

  /**
   The clock assumption is needed: a request stamped before a lock it had to
   wait for makes the archive refuse everything, and only such a request does.
   */
  lemma ConsistentIffRequestedLater(created: Time, rows: seq<Transfer>, t: Transfer)
    requires ChainConsistent(created, rows) && rows != []
    requires t.previousOwner == rows[|rows| - 1].nextOwner
    requires t.effectiveAt.Some? && t.notBefore == t.requestedAt + TRANSFER_DELAY && t.notBefore <= t.effectiveAt.value
    ensures ChainConsistent(created, rows + [t]) <==> EpochStart(created, rows, |rows|) < t.requestedAt
  {
    var longer := rows + [t];
    assert RowConsistent(created, rows, |rows| - 1);
    forall k | 0 <= k < |rows|
      ensures RowConsistent(created, longer, k)
    {
      assert RowConsistent(created, rows, k);
    }
    if EpochStart(created, rows, |rows|) < t.requestedAt {
      assert RowConsistent(created, longer, |rows|);
    } else {
      assert !RowConsistent(created, longer, |rows|);
    }
  }

  lemma NoneIsLater(created: Time, ts: seq<Transfer>, t: Transfer, i: nat)
    requires ChainOk(created, ts) && ts != [] && !HasPending(ts) && i < |ts|
    requires t.effectiveAt.Some? && ts[|ts| - 1].effectiveAt.GetOr(created) < t.effectiveAt.value
    ensures !Sooner(t, ts[i])
  {
    PendingIsLast(created, ts);
    assert LinkOk(created, ts, |ts| - 1);
    if i < |ts| - 1 { EffectiveIncreases(created, ts, i, |ts| - 1); }
  }

  lemma LaterRowIsLast(created: Time, ts: seq<Transfer>, t: Transfer)
    requires ChainOk(created, ts) && ts != [] && !HasPending(ts)
    requires t.state == Completed && t.effectiveAt.Some?
    requires ts[|ts| - 1].effectiveAt.GetOr(created) < t.effectiveAt.value
    ensures CompletedInOrder(ts + [t]) == ts + [t]
  {
    forall i | 0 <= i < |ts|
      ensures !Sooner(t, ts[i])
    {
      NoneIsLater(created, ts, t, i);
    }
    InsertLast(t, ts);
    assert (ts + [t])[..|ts|] == ts && ts[..|ts|] == ts;
    CompletedAreThePrefix(created, ts);
    PendingIsLast(created, ts);
  }

  /**
   Staging never compares its stamp with the last cutover. Staged with any stamp
   it accepts, then attested and committed, a transfer makes the archive answer
   "inconsistent" exactly when its stamp is no later than that cutover.
   */
  lemma StaleStampBreaksTheArchive(db: Db, clock: Time, op: Op, stamp: Time, reference: string, started: Time)
    requires Inv(db, clock) && op.Stage? && WellFormedReference(reference) && ReferenceIsNew(db, reference)
    requires Staged(db, op, stamp).reply.Accepted?
    requires db.device.value.mqttId.Some? && db.device.value.mqttId.value != ""
    requires stamp + TRANSFER_DELAY <= started && LastCutover(db) < started
    ensures var staged := Staged(db, op, stamp).db;
            var attested := Attest(staged, |db.transfers|, Some(reference), started);
            && attested.Attested?
            && var done := CommitAttested(staged, attested.ticket, true);
               && done.reply.Accepted?
               && (stamp <= LastCutover(db) <==>
                   OwnershipEpochs(done.db.device, done.db.transfers) == Err(ArchiveInconsistent))
  {
    var staged := Staged(db, op, stamp).db;
    StagedTransferCommits(db, clock, op, stamp, reference, started);
    var done := CommitAttested(staged, Attest(staged, |db.transfers|, Some(reference), started).ticket, true).db;
    var t := staged.transfers[|db.transfers|].(state := Completed, effectiveAt := Some(started));
    assert done.transfers == db.transfers + [t];
    StampDecidesTheChain(db.device.value.createdAt, db.transfers, t);
  }

  /** When the present owner's epoch began. */
  function LastCutover(db: Db): Time
    requires db.device.Some?
  {
    EpochStart(db.device.value.createdAt, db.transfers, |db.transfers|)
  }

  ghost predicate ReferenceIsNew(db: Db, reference: string) {
    forall k :: k in db.receipts ==> db.receipts[k].reference != reference
  }

  lemma StagedTransferCommits(db: Db, clock: Time, op: Op, stamp: Time, reference: string, started: Time)
    requires Inv(db, clock) && op.Stage? && WellFormedReference(reference) && ReferenceIsNew(db, reference)
    requires Staged(db, op, stamp).reply.Accepted?
    requires db.device.value.mqttId.Some? && db.device.value.mqttId.value != ""
    requires stamp + TRANSFER_DELAY <= started
    ensures var staged := Staged(db, op, stamp).db;
            var attested := Attest(staged, |db.transfers|, Some(reference), started);
            && attested.Attested?
            && var done := CommitAttested(staged, attested.ticket, true);
               done.reply.Accepted? && done.db.device.value.createdAt == db.device.value.createdAt
               && done.db.transfers == staged.transfers[|db.transfers| :=
                    staged.transfers[|db.transfers|].(state := Completed, effectiveAt := Some(started))]
  {
    assert reference[0] !in " \t\r\n";
  }

  lemma StampDecidesTheChain(created: Time, ts: seq<Transfer>, t: Transfer)
    requires ChainOk(created, ts) && !HasPending(ts) && t.state == Completed && t.effectiveAt.Some?
    requires ts != [] ==> t.previousOwner == RightfulOwner(ts)
    requires t.notBefore == t.requestedAt + TRANSFER_DELAY && t.notBefore <= t.effectiveAt.value
    requires EpochStart(created, ts, |ts|) < t.effectiveAt.value
    ensures CompletedInOrder(ts + [t]) == ts + [t]
    ensures ChainConsistent(created, ts + [t]) <==> EpochStart(created, ts, |ts|) < t.requestedAt
  {
    CompletedAreThePrefix(created, ts);
    PendingIsLast(created, ts);
    ChainIsConsistent(created, ts);
    assert ts[..|ts|] == ts;
    if ts == [] {
      assert CompletedInOrder([t][..0]) == [];
      assert ChainConsistent(created, [t]) <==> RowConsistent(created, [t], 0);
    } else {
      assert LinkOk(created, ts, |ts| - 1);
      LaterRowIsLast(created, ts, t);
      ConsistentIffRequestedLater(created, ts, t);
    }
  }

  // ---- windows are disjoint ------------------------------------------------

  lemma {:induction false} WindowsAreDisjoint(created: Time, rows: seq<Transfer>, j: nat, k: nat)
    requires ChainConsistent(created, rows) && j < k < |rows|
    ensures var a, b := EpochAt(created, rows, j), EpochAt(created, rows, k);
            a.start < a.end < rows[j].effectiveAt.GetOr(0) <= b.start < b.end
  {
    assert RowConsistent(created, rows, j) && RowConsistent(created, rows, k - 1) && RowConsistent(created, rows, k);
    if j < k - 1 {
      WindowsAreDisjoint(created, rows, j, k - 1);
    }
  }

  /** No instant belongs to two epochs, nor to an epoch and a freeze. */
  lemma InstantHasOneEpoch(created: Time, rows: seq<Transfer>, j: nat, k: nat, instant: Time)
    requires ChainConsistent(created, rows) && j < |rows| && k < |rows|
    requires EpochAt(created, rows, j).start <= instant < EpochAt(created, rows, j).end
    ensures EpochAt(created, rows, k).start <= instant < EpochAt(created, rows, k).end ==> j == k
    ensures !(rows[k].requestedAt <= instant < rows[k].effectiveAt.GetOr(0))
  {
    assert RowConsistent(created, rows, k);
    if j < k {
      WindowsAreDisjoint(created, rows, j, k);
    } else if k < j {
      WindowsAreDisjoint(created, rows, k, j);
    }
  }

  /** A device is frozen from the request of a transfer until it takes effect, or until now while it is pending. */
  predicate FrozenBy(t: Transfer, instant: Time) {
    t.requestedAt <= instant && (t.effectiveAt.None? || instant < t.effectiveAt.value)
  }

  /** No instant lies in two freezes, the one of a pending transfer included. */
  lemma FreezesAreDisjoint(created: Time, ts: seq<Transfer>, j: nat, k: nat, instant: Time)
    requires ChainOk(created, ts) && j < |ts| && k < |ts|
    requires FrozenBy(ts[j], instant) && FrozenBy(ts[k], instant)
    ensures j == k
  {
    if j < k {
      EffectiveIncreases(created, ts, j, k);
    } else if k < j {
      EffectiveIncreases(created, ts, k, j);
    }
  }

  lemma {:induction false} SingleOverlap(epochs: seq<Epoch>, user: UserId, from: Time, to: Time, k: nat)
    requires k < |epochs| && Overlap(epochs[k], user, from, to).Some?
    requires forall j :: 0 <= j < |epochs| && j != k ==> Overlap(epochs[j], user, from, to).None?
    ensures Overlaps(epochs, user, from, to) == [Overlap(epochs[k], user, from, to).value]
  {
    var n := |epochs| - 1;
    if k == n {
      NoOverlap(epochs[..n], user, from, to);
    } else {
      SingleOverlap(epochs[..n], user, from, to, k);
    }
  }

  lemma {:induction false} NoOverlap(epochs: seq<Epoch>, user: UserId, from: Time, to: Time)
    requires forall j :: 0 <= j < |epochs| ==> Overlap(epochs[j], user, from, to).None?
    ensures Overlaps(epochs, user, from, to) == []
  {
    if epochs != [] {
      NoOverlap(epochs[..|epochs| - 1], user, from, to);
    }
  }

  /** A window granted by the archive belongs to one of the epochs. */
  lemma {:induction false} OverlapComesFrom(epochs: seq<Epoch>, user: UserId, from: Time, to: Time, w: Window)
    requires w in Overlaps(epochs, user, from, to)
    ensures exists k :: 0 <= k < |epochs| && Overlap(epochs[k], user, from, to) == Some(w)
  {
    var n := |epochs| - 1;
    if Overlap(epochs[n], user, from, to) != Some(w) {
      OverlapComesFrom(epochs[..n], user, from, to, w);
      var k :| 0 <= k < n && Overlap(epochs[..n][k], user, from, to) == Some(w);
      assert Overlap(epochs[k], user, from, to) == Some(w);
    }
  }

  /** A period inside one epoch is answered with exactly that period. */
  lemma InsideOneEpoch(created: Time, rows: seq<Transfer>, k: nat, from: Time, to: Time)
    requires ChainConsistent(created, rows) && k < |rows|
    requires EpochAt(created, rows, k).start <= from < to <= EpochAt(created, rows, k).end
    ensures Overlaps(Epochs(created, rows), rows[k].previousOwner, from, to)
         == [Window(from, to, EpochAt(created, rows, k).transferId)]
  {
    var epochs := Epochs(created, rows);
    forall j | 0 <= j < |epochs| && j != k
      ensures Overlap(epochs[j], rows[k].previousOwner, from, to).None?
    {
      if j < k {
        WindowsAreDisjoint(created, rows, j, k);
      } else {
        WindowsAreDisjoint(created, rows, k, j);
      }
    }
    SingleOverlap(epochs, rows[k].previousOwner, from, to, k);
  }

  /** Each listed archive period, asked for as it is listed, is granted as it is listed. */
  lemma ListedPeriodIsGranted(db: Db, clock: Time, user: UserId, a: Archive)
    requires Inv(db, clock) && OwnershipEpochs(db.device, db.transfers).Ok?
    requires a in ArchivesOf(OwnershipEpochs(db.device, db.transfers).value, db.readings, user)
    ensures var w := FormerWindow(db.device, db.transfers, user, a.start, a.end);
            && w.Ok? && w.value.start == a.start && w.value.end == a.end
            && a.channels == ChannelsOf(db.readings, user, w.value.transferId)
  {
    var created := db.device.value.createdAt;
    ChainIsConsistent(created, db.transfers);
    var rows := CompletedInOrder(db.transfers);
    var k := ArchiveComesFrom(Epochs(created, rows), db.readings, user, a);
    assert RowConsistent(created, rows, k);
    InsideOneEpoch(created, rows, k, a.start, a.end);
  }

  lemma {:induction false} ArchiveComesFrom(epochs: seq<Epoch>, readings: seq<Reading>, user: UserId, a: Archive)
    returns (k: nat)
    requires a in ArchivesOf(epochs, readings, user)
    ensures k < |epochs| && epochs[k].owner == user
    ensures a == Archive(epochs[k].archiveId, epochs[k].start, epochs[k].end,
              ChannelsOf(readings, user, epochs[k].transferId))
  {
    var n := |epochs| - 1;
    if a in ArchivesOf(epochs[..n], readings, user) {
      k := ArchiveComesFrom(epochs[..n], readings, user, a);
    } else {
      k := n;
    }
  }

  // ---- every reading has one route -----------------------------------------

  /** Where an attributed reading must lie to be visible to its owner. */
  ghost predicate InItsWindow(db: Db, r: Reading)
    requires db.device.Some? && EpochIndex(r.epoch) <= |db.transfers|
  {
    var k := EpochIndex(r.epoch);
    // The current route has no lower bound while no transfer has completed.
    && (k < CurrentEpoch(db.transfers) || k > 0 ==>
         EpochStart(db.device.value.createdAt, db.transfers, k) <= r.measuredAt)
    && (k < |db.transfers| ==> r.measuredAt < db.transfers[k].requestedAt)
  }

  lemma BoundsAlongChain(created: Time, ts: seq<Transfer>, user: UserId, from: Time, to: Time)
    requires ChainOk(created, ts) && (ts != [] ==> user == RightfulOwner(ts))
    ensures var k := CurrentEpoch(ts);
            var start := if k == 0 then from else Max(from, EpochStart(created, ts, k));
            var end := if k < |ts| then Min(to, ts[k].requestedAt) else to;
            BoundedHistoryPeriod(ts, user, Owner, from, to) == if start >= end then Err(Forbidden) else Ok((start, end))
  {
    CompletedAreThePrefix(created, ts);
    PendingIsLast(created, ts);
    assert ts != [] ==> LinkOk(created, ts, |ts| - 1);
    assert CurrentEpoch(ts) > 0 ==> LinkOk(created, ts, CurrentEpoch(ts) - 1);
  }

  lemma CurrentBounds(db: Db, clock: Time, user: UserId, from: Time, to: Time)
    requires Inv(db, clock) && db.device.Some? && IsOwner(db.members, user)
    ensures var ts := db.transfers;
            var k := CurrentEpoch(ts);
            var start := if k == 0 then from else Max(from, EpochStart(db.device.value.createdAt, ts, k));
            var end := if k < |ts| then Min(to, ts[k].requestedAt) else to;
            BoundedHistoryPeriod(ts, user, Owner, from, to) == if start >= end then Err(Forbidden) else Ok((start, end))
  {
    OwnerIsUnique(db.members, user);
    BoundsAlongChain(db.device.value.createdAt, db.transfers, user, from, to);
  }

  lemma CurrentOwnerOfEpoch(db: Db, clock: Time, r: Reading)
    requires Inv(db, clock) && r in db.readings && EpochIndex(r.epoch) == CurrentEpoch(db.transfers)
    ensures IsOwner(db.members, r.owner)
  {
    assert AttributionOk(db, r);
    if db.transfers != [] {
      assert LinkOk(db.device.value.createdAt, db.transfers, |db.transfers| - 1);
    }
  }

  /** The current route serves exactly the readings of the current epoch, to their owner. */
  lemma CurrentRouteIsExact(db: Db, clock: Time, user: UserId, r: Reading)
    requires Inv(db, clock) && r in db.readings
    ensures AttributionOk(db, r)
    ensures (exists from, to :: CurrentRouteServes(db, user, r, from, to))
       <==> user == r.owner && EpochIndex(r.epoch) == CurrentEpoch(db.transfers) && InItsWindow(db, r)
  {
    assert AttributionOk(db, r);
    var created, ts := db.device.value.createdAt, db.transfers;
    CompletedAreThePrefix(created, ts);
    assert CurrentEpoch(ts) > 0 ==> LinkOk(created, ts, CurrentEpoch(ts) - 1);
    forall from, to | CurrentRouteServes(db, user, r, from, to)
      ensures user == r.owner && EpochIndex(r.epoch) == CurrentEpoch(ts) && InItsWindow(db, r)
    {
      CurrentBounds(db, clock, user, from, to);
    }
    if user == r.owner && EpochIndex(r.epoch) == CurrentEpoch(ts) && InItsWindow(db, r) {
      CurrentOwnerOfEpoch(db, clock, r);
      CurrentBounds(db, clock, user, r.measuredAt, r.measuredAt + 1);
      assert CurrentRouteServes(db, user, r, r.measuredAt, r.measuredAt + 1);
    }
  }

  /** The archive route serves exactly the readings of past epochs, to their owner. */
  lemma ArchiveRouteIsExact(db: Db, clock: Time, user: UserId, r: Reading)
    requires Inv(db, clock) && r in db.readings
    ensures AttributionOk(db, r)
    ensures (exists from, to :: ArchiveRouteServes(db, user, r, from, to))
       <==> user == r.owner && EpochIndex(r.epoch) < CurrentEpoch(db.transfers) && InItsWindow(db, r)
  {
    assert AttributionOk(db, r);
    var created, ts := db.device.value.createdAt, db.transfers;
    ChainIsConsistent(created, ts);
    var rows := ts[..CurrentEpoch(ts)];
    forall from, to | ArchiveRouteServes(db, user, r, from, to)
      ensures user == r.owner && EpochIndex(r.epoch) < CurrentEpoch(ts) && InItsWindow(db, r)
    {
      ServedFromItsEpoch(db, user, r, from, to);
    }
    var k := EpochIndex(r.epoch);
    if user == r.owner && k < CurrentEpoch(ts) && InItsWindow(db, r) {
      assert k > 0 ==> LinkOk(created, ts, k - 1);
      InsideOneEpoch(created, rows, k, r.measuredAt, r.measuredAt + 1);
      assert ArchiveRouteServes(db, user, r, r.measuredAt, r.measuredAt + 1);
    }
  }

  lemma ServedFromItsEpoch(db: Db, user: UserId, r: Reading, from: Time, to: Time)
    requires db.device.Some? && ChainOk(db.device.value.createdAt, db.transfers)
    requires EpochIndex(r.epoch) <= |db.transfers| && ArchiveRouteServes(db, user, r, from, to)
    ensures user == r.owner && EpochIndex(r.epoch) < CurrentEpoch(db.transfers) && InItsWindow(db, r)
  {
    var created, ts := db.device.value.createdAt, db.transfers;
    ChainIsConsistent(created, ts);
    var rows := ts[..CurrentEpoch(ts)];
    var w := FormerWindow(db.device, ts, user, from, to).value;
    OverlapComesFrom(Epochs(created, rows), user, from, to, w);
    var k :| 0 <= k < |rows| && Overlap(Epochs(created, rows)[k], user, from, to) == Some(w);
    var e := Epochs(created, rows)[k];
    assert e == EpochAt(created, rows, k);
    assert Overlap(e, user, from, to).Some? && w.transferId == e.transferId && e.start <= w.start && w.end <= e.end;
    assert LinkOk(created, ts, k) && (k > 0 ==> LinkOk(created, ts, k - 1));
    assert EpochIndex(r.epoch) == k;
    assert EpochStart(created, rows, k) == EpochStart(created, ts, k);
  }

  /**
   Nobody but its owner ever sees a reading, the owner never sees it through
   both routes, and sees it through one of them exactly when it lies in its
   epoch's window.
   */
  lemma ExactlyOneRoute(db: Db, clock: Time, user: UserId, r: Reading)
    requires Inv(db, clock) && r in db.readings
    ensures AttributionOk(db, r)
    ensures var current := exists from, to :: CurrentRouteServes(db, user, r, from, to);
            var archive := exists from, to :: ArchiveRouteServes(db, user, r, from, to);
            && !(current && archive)
            && (current || archive <==> user == r.owner && InItsWindow(db, r))
  {
    CurrentRouteIsExact(db, clock, user, r);
    ArchiveRouteIsExact(db, clock, user, r);
  }

  /** A reading dated between the device's creation and its storage is never orphaned. */
  lemma WellDatedReadingsAreReachable(db: Db, clock: Time, r: Reading)
    requires Inv(db, clock) && r in db.readings
    requires db.device.Some? && db.device.value.createdAt <= r.measuredAt <= r.attributedAt
    ensures AttributionOk(db, r) && InItsWindow(db, r)
  {
    assert AttributionOk(db, r);
  }
}
