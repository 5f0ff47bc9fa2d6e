/**
 The history routes instant by instant, from the rows alone: what period a former
 owner is granted, which archives are listed, and what the present owner may ask for.
 */
module TransferWindows {
  import opened Basics
  import opened TransferModel
  import opened TransferSafety
  import opened TransferArchive

  /** The instant lies in the user's k-th past ownership: from its cutover until its reset request. */
  predicate OwnedThen(db: Db, user: UserId, k: nat, instant: Time)
    requires k < |db.transfers| && db.device.Some?
  {
    && db.transfers[k].state == Completed
    && db.transfers[k].previousOwner == user
    && instant < db.transfers[k].requestedAt
    && if k == 0 then db.device.value.createdAt <= instant
       else db.transfers[k - 1].effectiveAt.Some? && db.transfers[k - 1].effectiveAt.value <= instant
  }

  /** The period asked for reaches into the user's k-th past ownership. */
  ghost predicate Touches(db: Db, user: UserId, k: nat, from: Time, to: Time)
    requires k < |db.transfers| && db.device.Some?
  {
    exists instant :: from <= instant < to && OwnedThen(db, user, k, instant)
  }

  /** It reaches into that one and no other. */
  ghost predicate TouchesOnly(db: Db, user: UserId, k: nat, from: Time, to: Time) {
    && db.device.Some? && k < |db.transfers| && Touches(db, user, k, from, to)
    && forall j :: 0 <= j < |db.transfers| && Touches(db, user, j, from, to) ==> j == k
  }

  /** The window is what the period and the k-th past ownership share. */
  ghost predicate IsSharedWith(db: Db, user: UserId, k: nat, from: Time, to: Time, w: Window)
    requires k < |db.transfers| && db.device.Some?
  {
    && (forall instant :: w.start <= instant < w.end <==> from <= instant < to && OwnedThen(db, user, k, instant))
    && w.transferId == if k == 0 then None else Some(k - 1)
  }

  lemma {:induction false} CountOverlaps(epochs: seq<Epoch>, user: UserId, from: Time, to: Time, j: nat, k: nat)
    requires j <= k < |epochs|
    requires Overlap(epochs[j], user, from, to).Some? && Overlap(epochs[k], user, from, to).Some?
    ensures |Overlaps(epochs, user, from, to)| >= if j < k then 2 else 1
  {
    var n := |epochs| - 1;
    if k < n {
      CountOverlaps(epochs[..n], user, from, to, j, k);
    } else if j < n {
      CountOverlaps(epochs[..n], user, from, to, j, j);
    }
  }

  lemma OverlapIsShared(db: Db, clock: Time, user: UserId, k: nat, from: Time, to: Time)
    requires Inv(db, clock) && db.device.Some? && k < CurrentEpoch(db.transfers)
    ensures var overlap := Overlap(EpochAt(db.device.value.createdAt, db.transfers, k), user, from, to);
            && (overlap.Some? <==> Touches(db, user, k, from, to))
            && (overlap.Some? ==> IsSharedWith(db, user, k, from, to, overlap.value))
  {
    var created, ts := db.device.value.createdAt, db.transfers;
    PendingIsLast(created, ts);
    assert LinkOk(created, ts, k) && (k > 0 ==> LinkOk(created, ts, k - 1));
    var e := EpochAt(created, ts, k);
    if user == e.owner && Max(from, e.start) < Min(to, e.end) {
      assert OwnedThen(db, user, k, Max(from, e.start));
    }
  }

  lemma FreezeTouchesNothing(db: Db, clock: Time, user: UserId, k: nat, from: Time, to: Time)
    requires Inv(db, clock) && db.device.Some? && CurrentEpoch(db.transfers) <= k < |db.transfers|
    ensures !Touches(db, user, k, from, to)
  {
  }

  lemma EpochsAlong(created: Time, ts: seq<Transfer>, n: nat)
    requires n <= |ts|
    ensures |Epochs(created, ts[..n])| == n
    ensures forall k :: 0 <= k < n ==> Epochs(created, ts[..n])[k] == EpochAt(created, ts, k)
  {
  }

  lemma OneOverlap(db: Db, clock: Time, user: UserId, k: nat, from: Time, to: Time)
    requires Inv(db, clock) && TouchesOnly(db, user, k, from, to)
    ensures k < CurrentEpoch(db.transfers)
    ensures Overlaps(Epochs(db.device.value.createdAt, db.transfers[..CurrentEpoch(db.transfers)]), user, from, to)
         == [Overlap(EpochAt(db.device.value.createdAt, db.transfers, k), user, from, to).GetOr(Window(0, 0, None))]
  {
    var created, ts, n := db.device.value.createdAt, db.transfers, CurrentEpoch(db.transfers);
    if n <= k { FreezeTouchesNothing(db, clock, user, k, from, to); }
    EpochsAlong(created, ts, n);
    forall j | 0 <= j < n && j != k
      ensures Overlap(Epochs(created, ts[..n])[j], user, from, to).None?
    {
      OverlapIsShared(db, clock, user, j, from, to);
    }
    OverlapIsShared(db, clock, user, k, from, to);
    SingleOverlap(Epochs(created, ts[..n]), user, from, to, k);
  }

  lemma SingleIsTheOnlyOne(db: Db, clock: Time, user: UserId, from: Time, to: Time) returns (k: nat)
    requires Inv(db, clock) && db.device.Some?
    requires |Overlaps(Epochs(db.device.value.createdAt, db.transfers[..CurrentEpoch(db.transfers)]),
               user, from, to)| == 1
    ensures TouchesOnly(db, user, k, from, to)
  {
    var created, ts, n := db.device.value.createdAt, db.transfers, CurrentEpoch(db.transfers);
    var epochs := Epochs(created, ts[..n]);
    EpochsAlong(created, ts, n);
    OverlapComesFrom(epochs, user, from, to, Overlaps(epochs, user, from, to)[0]);
    k :| 0 <= k < n && Overlap(epochs[k], user, from, to).Some?;
    OverlapIsShared(db, clock, user, k, from, to);
    forall j | 0 <= j < |ts| && Touches(db, user, j, from, to)
      ensures j == k
    {
      if n <= j {
        FreezeTouchesNothing(db, clock, user, j, from, to);
      } else {
        OverlapIsShared(db, clock, user, j, from, to);
        CountOverlaps(epochs, user, from, to, if j < k then j else k, if j < k then k else j);
      }
    }
  }

  /**
   A former owner asking for any period at all is granted exactly what it shares
   with his one past ownership it reaches into, marked with that ownership's
   transfer; reaching into none, or into two, he is told there is no archive.
   */
  lemma FormerWindowIsExact(db: Db, clock: Time, user: UserId, from: Time, to: Time)
    requires Inv(db, clock)
    ensures var answer := FormerWindow(db.device, db.transfers, user, from, to);
            && (answer.Ok? <==> exists k :: TouchesOnly(db, user, k, from, to))
            && (answer.Err? ==> answer.error == ArchiveMissing)
            && forall k :: TouchesOnly(db, user, k, from, to) ==> IsSharedWith(db, user, k, from, to, answer.value)
  {
    var answer := FormerWindow(db.device, db.transfers, user, from, to);
    if db.device.Some? {
      var created, ts, n := db.device.value.createdAt, db.transfers, CurrentEpoch(db.transfers);
      ChainIsConsistent(created, ts);
      forall k | TouchesOnly(db, user, k, from, to)
        ensures answer.Ok? && IsSharedWith(db, user, k, from, to, answer.value)
      {
        OneOverlap(db, clock, user, k, from, to);
        OverlapIsShared(db, clock, user, k, from, to);
      }
      if answer.Ok? {
        var k := SingleIsTheOnlyOne(db, clock, user, from, to);
      }
    }
  }

  /** A period that reaches into two past ownerships of the caller is refused, whichever they are. */
  lemma TwoPastOwnershipsAreRefused(db: Db, clock: Time, user: UserId, from: Time, to: Time, j: nat, k: nat)
    requires Inv(db, clock) && db.device.Some? && j < k < |db.transfers|
    requires Touches(db, user, j, from, to) && Touches(db, user, k, from, to)
    ensures FormerWindow(db.device, db.transfers, user, from, to) == Err(ArchiveMissing)
  {
    FormerWindowIsExact(db, clock, user, from, to);
  }

  // ---- the present owner -----------------------------------------------------

  /** After every cutover, and before the reset request of a pending transfer. */
  predicate OwnedNow(db: Db, instant: Time) {
    forall k :: 0 <= k < |db.transfers| ==>
      if db.transfers[k].state == Pending then instant < db.transfers[k].requestedAt
      else db.transfers[k].effectiveAt.Some? && db.transfers[k].effectiveAt.value <= instant
  }

  /** Before the first cutover anyone the route admits may read, afterwards the present owner alone. */
  ghost predicate MayRead(db: Db, user: UserId, role: Role) {
    (exists k :: 0 <= k < |db.transfers| && db.transfers[k].state == Completed) ==>
      role == Owner && IsOwner(db.members, user)
  }

  /** The same by the last rows of the chain. */
  predicate InPresentEpoch(created: Time, ts: seq<Transfer>, instant: Time) {
    var n := CurrentEpoch(ts);
    (n > 0 ==> EpochStart(created, ts, n) <= instant) && (n < |ts| ==> instant < ts[n].requestedAt)
  }

  lemma OwnedNowIff(db: Db, clock: Time, instant: Time)
    requires Inv(db, clock) && db.device.Some?
    ensures OwnedNow(db, instant) <==> InPresentEpoch(db.device.value.createdAt, db.transfers, instant)
  {
    var created, ts, n := db.device.value.createdAt, db.transfers, CurrentEpoch(db.transfers);
    PendingIsLast(created, ts);
    forall k | 0 <= k < n
      ensures ts[k].effectiveAt.Some? && ts[k].effectiveAt.value <= EpochStart(created, ts, n)
    {
      assert LinkOk(created, ts, k) && LinkOk(created, ts, n - 1);
      if k < n - 1 { EffectiveIncreases(created, ts, k, n - 1); }
    }
    if n > 0 && OwnedNow(db, instant) { assert ts[n - 1].state == Completed; }
  }

  lemma MayReadIff(db: Db, clock: Time, user: UserId, role: Role)
    requires Inv(db, clock) && db.device.Some?
    ensures var ts, n := db.transfers, CurrentEpoch(db.transfers);
            && (n > 0 ==> ts[n - 1].effectiveAt.Some?)
            && (MayRead(db, user, role) <==> (n > 0 ==> role == Owner && ts[n - 1].nextOwner == user))
  {
    var created, ts, n := db.device.value.createdAt, db.transfers, CurrentEpoch(db.transfers);
    PendingIsLast(created, ts);
    assert n > 0 ==> LinkOk(created, ts, n - 1) && ts[n - 1].state == Completed;
    assert ts != [] ==> LinkOk(created, ts, |ts| - 1);
  }

  lemma PeriodAlongChain(created: Time, ts: seq<Transfer>, user: UserId, role: Role, from: Time, to: Time)
    requires ChainOk(created, ts)
    requires CurrentEpoch(ts) > 0 ==> ts[CurrentEpoch(ts) - 1].effectiveAt.Some?
    ensures var n := CurrentEpoch(ts);
            var start := if n == 0 then from else Max(from, EpochStart(created, ts, n));
            var end := if n < |ts| then Min(to, ts[n].requestedAt) else to;
            BoundedHistoryPeriod(ts, user, role, from, to) ==
              if (n > 0 ==> role == Owner && ts[n - 1].nextOwner == user) && start < end then Ok((start, end))
              else Err(Forbidden)
  {
    CompletedAreThePrefix(created, ts);
    PendingIsLast(created, ts);
  }

  /** The period granted to a present member is what the period asked for shares with the present ownership. */
  lemma CurrentPeriodIsExact(db: Db, clock: Time, user: UserId, role: Role, from: Time, to: Time)
    requires Inv(db, clock) && db.device.Some?
    ensures var answer := BoundedHistoryPeriod(db.transfers, user, role, from, to);
            && (answer.Ok? <==>
                 MayRead(db, user, role) && exists instant :: from <= instant < to && OwnedNow(db, instant))
            && (answer.Err? ==> answer.error == Forbidden)
            && (answer.Ok? ==> forall instant ::
                 answer.value.0 <= instant < answer.value.1 <==> from <= instant < to && OwnedNow(db, instant))
  {
    var created, ts := db.device.value.createdAt, db.transfers;
    MayReadIff(db, clock, user, role);
    PeriodAlongChain(created, ts, user, role, from, to);
    forall instant
      ensures OwnedNow(db, instant) <==> InPresentEpoch(created, ts, instant)
    {
      OwnedNowIff(db, clock, instant);
    }
    var answer := BoundedHistoryPeriod(ts, user, role, from, to);
    if answer.Ok? {
      assert OwnedNow(db, answer.value.0);
    }
  }

  // ---- the list of archives ----------------------------------------------------

  /** The archive of the user's k-th past ownership: its bounds and the channels with readings of it. */
  ghost predicate IsArchive(db: Db, user: UserId, k: nat, a: Archive)
    requires k < |db.transfers| && db.device.Some?
  {
    && db.transfers[k].state == Completed && db.transfers[k].previousOwner == user
    && a.archiveId == k
    && Some(a.start) == (if k == 0 then Some(db.device.value.createdAt) else db.transfers[k - 1].effectiveAt)
    && a.end == db.transfers[k].requestedAt
    && forall c :: c in a.channels <==>
         exists r :: r in db.readings && r.channel == c && r.owner == user
                     && r.epoch == if k == 0 then None else Some(k - 1)
  }

  ghost predicate IsAnArchive(db: Db, user: UserId, n: nat, a: Archive)
    requires n <= |db.transfers| && db.device.Some?
  {
    exists k :: 0 <= k < n && IsArchive(db, user, k, a)
  }

  ghost predicate IsListed(db: Db, user: UserId, k: nat, list: seq<Archive>)
    requires k < |db.transfers| && db.device.Some?
  {
    exists i :: 0 <= i < |list| && IsArchive(db, user, k, list[i])
  }

  /** Every past ownership of the user among the first n is listed, nothing else is, and later ones come first. */
  ghost predicate Lists(db: Db, user: UserId, n: nat, list: seq<Archive>)
    requires n <= |db.transfers| && db.device.Some?
  {
    && (forall i :: 0 <= i < |list| ==> IsAnArchive(db, user, n, list[i]))
    && (forall k :: 0 <= k < n && db.transfers[k].state == Completed && db.transfers[k].previousOwner == user ==>
          IsListed(db, user, k, list))
    && forall i, j :: 0 <= i < j < |list| ==> list[j].end < list[i].end
  }

  function ArchiveAt(db: Db, user: UserId, k: nat): Archive
    requires k < |db.transfers| && db.device.Some?
  {
    var e := EpochAt(db.device.value.createdAt, db.transfers, k);
    Archive(e.archiveId, e.start, e.end, ChannelsOf(db.readings, user, e.transferId))
  }

  lemma ArchiveAtIs(db: Db, clock: Time, user: UserId, k: nat)
    requires Inv(db, clock) && db.device.Some? && k < CurrentEpoch(db.transfers)
    requires db.transfers[k].previousOwner == user
    ensures IsArchive(db, user, k, ArchiveAt(db, user, k))
  {
    PendingIsLast(db.device.value.createdAt, db.transfers);
    assert LinkOk(db.device.value.createdAt, db.transfers, k);
    assert k > 0 ==> LinkOk(db.device.value.createdAt, db.transfers, k - 1);
  }

  lemma StillAnArchive(db: Db, user: UserId, n: nat, m: nat, a: Archive)
    requires db.device.Some? && n <= m <= |db.transfers| && IsAnArchive(db, user, n, a)
    ensures IsAnArchive(db, user, m, a)
  {
    var k :| 0 <= k < n && IsArchive(db, user, k, a);
    assert k < m;
  }

  lemma NothingMoreListed(db: Db, user: UserId, n: nat, m: nat, list: seq<Archive>)
    requires db.device.Some? && n <= m <= |db.transfers| && Lists(db, user, n, list)
    requires forall k :: n <= k < m ==> db.transfers[k].state != Completed || db.transfers[k].previousOwner != user
    ensures Lists(db, user, m, list)
  {
    forall i | 0 <= i < |list|
      ensures IsAnArchive(db, user, m, list[i])
    {
      StillAnArchive(db, user, n, m, list[i]);
    }
  }

  lemma {:induction false} ListsAlong(db: Db, clock: Time, user: UserId, n: nat)
    requires Inv(db, clock) && db.device.Some? && n <= CurrentEpoch(db.transfers)
    ensures Lists(db, user, n, ArchivesOf(Epochs(db.device.value.createdAt, db.transfers[..n]), db.readings, user))
  {
    if n > 0 {
      var created, ts := db.device.value.createdAt, db.transfers;
      ListsAlong(db, clock, user, n - 1);
      EpochsAlong(created, ts, n);
      assert Epochs(created, ts[..n])[..n - 1] == Epochs(created, ts[..n - 1]);
      var earlier := ArchivesOf(Epochs(created, ts[..n - 1]), db.readings, user);
      if ts[n - 1].previousOwner == user {
        ArchiveAtIs(db, clock, user, n - 1);
        EarlierStayListed(db, clock, user, n - 1, earlier, ArchiveAt(db, user, n - 1));
        OneMoreListed(db, user, n - 1, earlier, ArchiveAt(db, user, n - 1));
      } else {
        NothingMoreListed(db, user, n - 1, n, earlier);
      }
    }
  }

  lemma ArchiveEndsEarlier(db: Db, clock: Time, user: UserId, n: nat, b: Archive, a: Archive)
    requires Inv(db, clock) && db.device.Some? && n < |db.transfers|
    requires IsAnArchive(db, user, n, b) && IsArchive(db, user, n, a)
    ensures b.end < a.end
  {
    var k :| 0 <= k < n && IsArchive(db, user, k, b);
    StagedRowsAreDistinct(db, clock, k, n);
  }

  lemma StillListed(db: Db, user: UserId, k: nat, a: Archive, list: seq<Archive>)
    requires db.device.Some? && k < |db.transfers| && IsListed(db, user, k, list)
    ensures IsListed(db, user, k, [a] + list)
  {
    var i :| 0 <= i < |list| && IsArchive(db, user, k, list[i]);
    assert ([a] + list)[i + 1] == list[i];
  }

  lemma EarlierStayListed(db: Db, clock: Time, user: UserId, n: nat, earlier: seq<Archive>, a: Archive)
    requires Inv(db, clock) && db.device.Some? && n < |db.transfers|
    requires Lists(db, user, n, earlier) && IsArchive(db, user, n, a)
    ensures forall i :: 0 <= i < |earlier| ==> earlier[i].end < a.end && IsAnArchive(db, user, n + 1, earlier[i])
  {
    forall i | 0 <= i < |earlier|
      ensures earlier[i].end < a.end && IsAnArchive(db, user, n + 1, earlier[i])
    {
      ArchiveEndsEarlier(db, clock, user, n, earlier[i], a);
      StillAnArchive(db, user, n, n + 1, earlier[i]);
    }
  }

  lemma OneMoreListed(db: Db, user: UserId, n: nat, earlier: seq<Archive>, a: Archive)
    requires db.device.Some? && n < |db.transfers|
    requires Lists(db, user, n, earlier) && IsArchive(db, user, n, a)
    requires forall i :: 0 <= i < |earlier| ==> earlier[i].end < a.end && IsAnArchive(db, user, n + 1, earlier[i])
    ensures Lists(db, user, n + 1, [a] + earlier)
  {
    var list := [a] + earlier;
    assert IsAnArchive(db, user, n + 1, a) && list[0] == a;
    forall k | 0 <= k <= n && db.transfers[k].state == Completed && db.transfers[k].previousOwner == user
      ensures IsListed(db, user, k, list)
    {
      if k < n { StillListed(db, user, k, a, earlier); }
    }
  }

  /** The list has every past ownership of the account, each once, latest first, and nothing else. */
  lemma ArchiveListIsExact(db: Db, clock: Time, user: UserId)
    requires Inv(db, clock)
    ensures var answer := Archives(db.device, db.transfers, db.readings, user);
            && (answer.Ok? <==> exists k :: 0 <= k < |db.transfers| && db.transfers[k].state == Completed)
            && (answer.Ok? ==> db.device.Some? && Lists(db, user, |db.transfers|, answer.value))
  {
    OpenIffAnyCompleted(db, clock);
    if db.device.Some? {
      var created, ts, n := db.device.value.createdAt, db.transfers, CurrentEpoch(db.transfers);
      ChainIsConsistent(created, ts);
      ListsAlong(db, clock, user, n);
      assert forall k :: n <= k < |ts| ==> ts[k].state == Pending;
      NothingMoreListed(db, user, n, |ts|, ArchivesOf(Epochs(created, ts[..n]), db.readings, user));
    }
  }
}
