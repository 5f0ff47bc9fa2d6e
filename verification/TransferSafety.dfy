/**
 What every run of the transfer protocol keeps: one unbroken ownership chain,
 one pending transfer, one owner, one live challenge, increasing generations,
 and no switch without an elapsed delay and a fresh receipt.
 */
module TransferSafety {
  import opened Basics
  import opened TransferModel

  // ---- steps and runs ------------------------------------------------------

  /**
   Every transaction that can commit on the device's rows. Commit carries the
   ticket of any worker, however old; the last three are other parts of the
   service writing accounts, alarm rules and broker receipts.
   */
  datatype Op =
    | Issue(uid: string, requestedBy: Option<UserId>, challengeId: string, digest: string)
    | Stage(uid: string, next: UserId, generation: int, challengeId: string, digest: string, tagValid: bool)
    | Finalize(id: nat, verifier: Option<bool>)
    | Commit(ticket: Ticket, verified: bool)
    | Claim(user: UserId, uid: string, mqttId: string, mqttTaken: bool)
    | Invite(actor: UserId, user: UserId)
    | Dismiss(actor: UserId, user: UserId)
    | Store(channel: string, measuredAt: Time)
    | SetUser(user: UserId, account: User)
    | SetAlarmRules(rules: Option<string>)
    | WriteReceipt(id: nat, receipt: Receipt)

  ghost function Apply(db: Db, op: Op, now: Time): Outcome {
    match op
    case Issue(uid, requester, id, digest) => IssueResetChallenge(db, uid, requester, id, digest, now)
    case Stage(uid, next, generation, id, digest, valid) =>
      StageVerifiedTransfer(db, uid, next, generation, id, digest, valid, now)
    case Finalize(id, verifier) => CompleteDueTransfer(db, id, verifier, now)
    case Commit(ticket, verified) => CommitAttested(db, ticket, verified)
    case Claim(user, uid, mqttId, taken) => ClaimDevice(db, user, uid, mqttId, taken, now)
    case Invite(actor, user) => AddMember(db, actor, user)
    case Dismiss(actor, user) => RemoveMember(db, actor, user)
    case Store(channel, measuredAt) => StoreReading(db, channel, measuredAt, now)
    case SetUser(user, account) => Outcome(db.(users := db.users[user := account]), Accepted)
    case SetAlarmRules(rules) => Outcome(db.(alarmRules := rules), Accepted)
    case WriteReceipt(id, receipt) => Outcome(db.(receipts := db.receipts[id := receipt]), Accepted)
  }

  ghost function Staged(db: Db, op: Op, stamp: Time): Outcome
    requires op.Stage?
  {
    StageVerifiedTransfer(db, op.uid, op.next, op.generation, op.challengeId, op.digest, op.tagValid, stamp)
  }

  datatype Step = Step(op: Op, now: Time)

  /** A worker's clock was read when it began, before its commit. */
  ghost predicate Timely(step: Step, clock: Time) {
    clock < step.now && (step.op.Commit? ==> step.op.ticket.startedAt <= step.now)
  }

  ghost predicate TimelyRun(steps: seq<Step>, clock: Time) {
    steps != [] ==> Timely(steps[0], clock) && TimelyRun(steps[1..], steps[0].now)
  }

  ghost function Run(db: Db, steps: seq<Step>): Db
    decreases |steps|
  {
    if steps == [] then db else Run(Apply(db, steps[0].op, steps[0].now).db, steps[1..])
  }

  function EndClock(steps: seq<Step>, clock: Time): Time {
    if steps == [] then clock else steps[|steps| - 1].now
  }

  function Empty(users: map<UserId, User>): Db {
    Db(None, users, map[], map[], None, [], map[], map[], [], [])
  }

  // ---- the invariant -------------------------------------------------------

  /** Epoch k begins at the creation of the device, or when transfer k - 1 took effect. */
  function EpochStart(created: Time, ts: seq<Transfer>, k: nat): Time
    requires k <= |ts|
  {
    if k == 0 then created else ts[k - 1].effectiveAt.GetOr(created)
  }

  predicate LinkOk(created: Time, ts: seq<Transfer>, k: nat)
    requires k < |ts|
  {
    var t := ts[k];
    && t.id == k
    && EpochStart(created, ts, k) < t.requestedAt
    && t.notBefore == t.requestedAt + TRANSFER_DELAY
    && t.previousOwner != t.nextOwner
    && (k > 0 ==>
          && ts[k - 1].state == Completed && t.previousOwner == ts[k - 1].nextOwner
          && ts[k - 1].generation < t.generation)
    && (match t.state
        case Completed => t.effectiveAt.Some? && t.notBefore <= t.effectiveAt.value
        case Pending => t.effectiveAt.None?
        case Cancelled => false)
  }

  ghost predicate ChainOk(created: Time, ts: seq<Transfer>) {
    forall k :: 0 <= k < |ts| ==> LinkOk(created, ts, k)
  }

  predicate IsPast(t: Transfer, clock: Time) {
    t.requestedAt <= clock && t.effectiveAt.GetOr(clock) <= clock
  }

  /** Who must own the device, by the transfers alone. */
  function RightfulOwner(ts: seq<Transfer>): UserId
    requires ts != []
  {
    var last := ts[|ts| - 1];
    if last.state == Pending then last.previousOwner else last.nextOwner
  }

  ghost predicate OwnershipOk(db: Db, clock: Time) {
    && AtMostOneOwner(db.members)
    && (db.device.None? ==> db.members == map[] && db.transfers == [] && db.readings == [])
    && (db.device.Some? ==>
          && db.device.value.createdAt <= clock
          && OwnerOf(db.members).Some?
          && ChainOk(db.device.value.createdAt, db.transfers)
          && (db.transfers != [] ==> OwnerOf(db.members) == Some(RightfulOwner(db.transfers))))
    && forall k :: 0 <= k < |db.transfers| ==> IsPast(db.transfers[k], clock)
  }

  /** Spent challenges back exactly their transfer; two open ones never overlap in time. */
  ghost predicate ChallengesOk(db: Db, clock: Time) {
    && (forall id :: id in db.challenges ==>
          && db.challenges[id].createdAt <= clock
          && db.challenges[id].expiresAt == db.challenges[id].createdAt + CHALLENGE_LIFETIME)
    && OpenApart(db.challenges)
    && (forall k :: 0 <= k < |db.transfers| ==>
          && db.transfers[k].challengeId in db.challenges
          && db.challenges[db.transfers[k].challengeId].consumedAt == Some(db.transfers[k].requestedAt))
  }

  ghost predicate OpenApart(challenges: map<string, Challenge>) {
    forall a, b :: IsOpen(challenges, a) && IsOpen(challenges, b) && a != b ==> Apart(challenges[a], challenges[b])
  }

  predicate IsOpen(challenges: map<string, Challenge>, id: string) {
    id in challenges && challenges[id].consumedAt.None?
  }

  predicate Apart(a: Challenge, b: Challenge) {
    a.expiresAt <= b.createdAt || b.expiresAt <= a.createdAt
  }

  function EpochIndex(epoch: Option<nat>): nat {
    match epoch case None => 0 case Some(id) => id + 1
  }

  /** The owner a reading of epoch k belongs to. */
  function OwnerDuring(ts: seq<Transfer>, k: nat): UserId
    requires 0 < |ts| && k <= |ts|
  {
    if k < |ts| then ts[k].previousOwner else ts[k - 1].nextOwner
  }

  /** Epochs so far: the current one is the last, pending transfer or not. */
  function CurrentEpoch(ts: seq<Transfer>): nat {
    if ts != [] && ts[|ts| - 1].state == Pending then |ts| - 1 else |ts|
  }

  ghost predicate AttributionOk(db: Db, r: Reading) {
    && db.device.Some?
    && EpochIndex(r.epoch) <= CurrentEpoch(db.transfers)
    && (if db.transfers == [] then OwnerOf(db.members) == Some(r.owner)
        else r.owner == OwnerDuring(db.transfers, EpochIndex(r.epoch)))
    && (r.epoch.Some? ==> EpochStart(db.device.value.createdAt, db.transfers, EpochIndex(r.epoch)) <= r.measuredAt)
    && (EpochIndex(r.epoch) < |db.transfers| ==> r.attributedAt < db.transfers[EpochIndex(r.epoch)].requestedAt)
  }

  ghost predicate ReadingsOk(db: Db, clock: Time) {
    forall k :: 0 <= k < |db.readings| ==> AttributionOk(db, db.readings[k]) && db.readings[k].attributedAt <= clock
  }

  ghost predicate Inv(db: Db, clock: Time) {
    OwnershipOk(db, clock) && ChallengesOk(db, clock) && ReadingsOk(db, clock)
  }

  // ---- small facts ---------------------------------------------------------

  lemma OwnerIsUnique(members: map<UserId, Role>, user: UserId)
    requires AtMostOneOwner(members) && IsOwner(members, user)
    ensures OwnerOf(members) == Some(user)
  {
  }

  lemma SameOwner(before: map<UserId, Role>, after: map<UserId, Role>)
    requires AtMostOneOwner(before)
    requires forall u :: IsOwner(before, u) <==> IsOwner(after, u)
    ensures AtMostOneOwner(after) && OwnerOf(after) == OwnerOf(before)
  {
  }

  /** In a good chain the only pending row is the last one. */
  lemma PendingIsLast(created: Time, ts: seq<Transfer>)
    requires ChainOk(created, ts)
    ensures HasPending(ts) <==> ts != [] && ts[|ts| - 1].state == Pending
    ensures forall k :: 0 <= k < CurrentEpoch(ts) ==> ts[k].state == Completed
  {
    forall k | 0 <= k < |ts| - 1
      ensures ts[k].state == Completed
    {
      assert LinkOk(created, ts, k + 1);
    }
    assert ts != [] ==> LinkOk(created, ts, |ts| - 1);
  }

  lemma {:induction false} InsertLast(t: Transfer, rows: seq<Transfer>)
    requires forall i :: 0 <= i < |rows| ==> !Sooner(t, rows[i])
    ensures InsertSooner(t, rows) == rows + [t]
  {
    if rows != [] {
      InsertLast(t, rows[1..]);
    }
  }

  lemma {:induction false} EffectiveIncreases(created: Time, ts: seq<Transfer>, j: nat, k: nat)
    requires ChainOk(created, ts) && j < k < |ts|
    ensures ts[j].effectiveAt.Some? && ts[j].effectiveAt.value < ts[k].requestedAt
  {
    assert LinkOk(created, ts, k) && LinkOk(created, ts, k - 1);
    if j < k - 1 {
      EffectiveIncreases(created, ts, j, k - 1);
    }
  }

  /** The archive's ordering reads a good chain exactly in staging order. */
  lemma {:induction false} CompletedPrefix(created: Time, ts: seq<Transfer>, m: nat)
    requires ChainOk(created, ts) && m <= |ts|
    ensures CompletedInOrder(ts[..m]) == ts[..if m <= CurrentEpoch(ts) then m else CurrentEpoch(ts)]
  {
    if m > 0 {
      var prefix := ts[..m];
      assert prefix[..m - 1] == ts[..m - 1];
      CompletedPrefix(created, ts, m - 1);
      PendingIsLast(created, ts);
      if ts[m - 1].state == Completed {
        forall i | 0 <= i < m - 1
          ensures !Sooner(ts[m - 1], ts[i])
        {
          EffectiveIncreases(created, ts, i, m - 1);
          assert LinkOk(created, ts, m - 1);
        }
        InsertLast(ts[m - 1], ts[..m - 1]);
        assert ts[..m - 1] + [ts[m - 1]] == ts[..m];
      }
    }
  }

  lemma CompletedAreThePrefix(created: Time, ts: seq<Transfer>)
    requires ChainOk(created, ts)
    ensures CompletedInOrder(ts) == ts[..CurrentEpoch(ts)]
    ensures LatestCompleted(ts) == if CurrentEpoch(ts) == 0 then None else Some(ts[CurrentEpoch(ts) - 1])
  {
    CompletedPrefix(created, ts, |ts|);
    assert ts[..|ts|] == ts;
  }

  lemma {:induction false} GenerationsIncrease(created: Time, ts: seq<Transfer>, j: nat, k: nat)
    requires ChainOk(created, ts) && j < k < |ts|
    ensures ts[j].generation < ts[k].generation
  {
    assert LinkOk(created, ts, k);
    if j < k - 1 {
      GenerationsIncrease(created, ts, j, k - 1);
    }
  }

  // ---- every step keeps the invariant --------------------------------------

  lemma OwnershipAges(db: Db, clock: Time, now: Time)
    requires Inv(db, clock) && clock <= now
    ensures Inv(db, now)
  {
  }

  /** Readings keep their epochs when neither the chain nor the owner moves. */
  lemma ReadingsFramed(db: Db, after: Db, clock: Time, now: Time)
    requires ReadingsOk(db, clock) && clock <= now
    requires after.readings == db.readings && after.transfers == db.transfers
    requires db.device.Some? ==> after.device.Some? && after.device.value.createdAt == db.device.value.createdAt
    requires db.device.Some? && db.transfers == [] ==> OwnerOf(after.members) == OwnerOf(db.members)
    ensures ReadingsOk(after, now)
  {
    forall i | 0 <= i < |after.readings|
      ensures AttributionOk(after, after.readings[i])
    {
      assert AttributionOk(db, db.readings[i]);
    }
  }

  lemma OwnershipFramed(db: Db, after: Db, clock: Time, now: Time)
    requires OwnershipOk(db, clock) && clock <= now
    requires after.device == db.device && after.members == db.members && after.transfers == db.transfers
    requires db.device.None? ==> after.readings == db.readings
    ensures OwnershipOk(after, now)
  {
  }

  lemma ChallengesFramed(db: Db, after: Db, clock: Time, now: Time)
    requires ChallengesOk(db, clock) && clock <= now
    requires after.challenges == db.challenges && after.transfers == db.transfers
    ensures ChallengesOk(after, now)
  {
  }

  lemma NewChallengeIsApart(db: Db, clock: Time, id: string, c: Challenge, now: Time)
    requires ChallengesOk(db, clock) && clock <= now && id !in db.challenges && !HasLiveChallenge(db.challenges, now)
    requires c.createdAt == now && c.expiresAt == now + CHALLENGE_LIFETIME
    ensures ChallengesOk(db.(challenges := db.challenges[id := c]), now)
  {
    var challenges := db.challenges[id := c];
    forall a, b | IsOpen(challenges, a) && IsOpen(challenges, b) && a != b
      ensures Apart(challenges[a], challenges[b])
    {
      if a == id {
        assert db.challenges[b].expiresAt <= now;
      } else if b == id {
        assert db.challenges[a].expiresAt <= now;
      } else {
        assert IsOpen(db.challenges, a) && IsOpen(db.challenges, b);
      }
    }
  }

  lemma IssueKeeps(db: Db, clock: Time, op: Op, now: Time)
    requires Inv(db, clock) && clock < now && op.Issue?
    ensures Inv(IssueResetChallenge(db, op.uid, op.requestedBy, op.challengeId, op.digest, now).db, now)
  {
    var after := IssueResetChallenge(db, op.uid, op.requestedBy, op.challengeId, op.digest, now);
    OwnershipFramed(db, after.db, clock, now);
    ReadingsFramed(db, after.db, clock, now);
    if after.reply.Accepted? {
      NewChallengeIsApart(db, clock, op.challengeId,
          Challenge(op.requestedBy, op.digest, now, now + CHALLENGE_LIFETIME, None), now);
    } else {
      ChallengesFramed(db, after.db, clock, now);
    }
  }

  lemma ChainExtends(created: Time, ts: seq<Transfer>, t: Transfer)
    requires ChainOk(created, ts) && !HasPending(ts)
    requires t.id == |ts| && t.state == Pending && t.effectiveAt.None? && t.previousOwner != t.nextOwner
    requires EpochStart(created, ts, |ts|) < t.requestedAt && t.notBefore == t.requestedAt + TRANSFER_DELAY
    requires ts != [] ==> t.previousOwner == RightfulOwner(ts) && ts[|ts| - 1].generation < t.generation
    ensures ChainOk(created, ts + [t])
  {
    PendingIsLast(created, ts);
    assert ts != [] ==> LinkOk(created, ts, |ts| - 1);
    forall k | 0 <= k < |ts + [t]|
      ensures LinkOk(created, ts + [t], k)
    {
      if k < |ts| {
        assert LinkOk(created, ts, k);
      }
    }
  }

  lemma StageKeepsReadings(db: Db, after: Db, t: Transfer, clock: Time, now: Time)
    requires ReadingsOk(db, clock) && clock < now && db.device.Some? && after.device == db.device
    requires after.readings == db.readings && after.transfers == db.transfers + [t]
    requires !HasPending(db.transfers) && t.state == Pending && t.requestedAt == now
    requires Some(t.previousOwner) == if db.transfers == [] then OwnerOf(db.members)
                                      else Some(RightfulOwner(db.transfers))
    ensures ReadingsOk(after, now)
  {
    var n := |db.transfers|;
    assert n > 0 ==> db.transfers[n - 1].state != Pending;
    assert CurrentEpoch(db.transfers) == n == CurrentEpoch(after.transfers);
    forall i | 0 <= i < |after.readings|
      ensures AttributionOk(after, after.readings[i])
    {
      assert AttributionOk(db, db.readings[i]) && db.readings[i].attributedAt <= clock;
    }
  }

  lemma StageKeepsChallenges(db: Db, clock: Time, op: Op, now: Time)
    requires Inv(db, clock) && clock < now && op.Stage?
    requires Staged(db, op, now).reply.Accepted?
    ensures ChallengesOk(Staged(db, op, now).db, now)
  {
    var after := Staged(db, op, now).db;
    forall a, b | IsOpen(after.challenges, a) && IsOpen(after.challenges, b) && a != b
      ensures Apart(after.challenges[a], after.challenges[b])
    {
      assert IsOpen(db.challenges, a) && IsOpen(db.challenges, b);
    }
  }

  lemma StageKeepsOwnership(db: Db, after: Db, t: Transfer, clock: Time, now: Time)
    requires OwnershipOk(db, clock) && clock < now && db.device.Some? && !HasPending(db.transfers)
    requires after.device == db.device && after.members == db.members && after.transfers == db.transfers + [t]
    requires OwnerOf(db.members) == Some(t.previousOwner) && t.previousOwner != t.nextOwner
    requires t.id == |db.transfers| && t.state == Pending && t.effectiveAt.None?
    requires t.requestedAt == now && t.notBefore == now + TRANSFER_DELAY && LastGeneration(db.transfers) < t.generation
    ensures OwnershipOk(after, now)
  {
    var created, ts := db.device.value.createdAt, db.transfers;
    PendingIsLast(created, ts);
    assert ts != [] ==> LinkOk(created, ts, |ts| - 1) && IsPast(ts[|ts| - 1], clock);
    ChainExtends(created, ts, t);
  }

  lemma StageKeeps(db: Db, clock: Time, op: Op, now: Time)
    requires Inv(db, clock) && clock < now && op.Stage?
    ensures Inv(Staged(db, op, now).db, now)
  {
    var after := Staged(db, op, now);
    if after.reply.Accepted? {
      var t := after.db.transfers[|db.transfers|];
      StageKeepsOwnership(db, after.db, t, clock, now);
      StageKeepsReadings(db, after.db, t, clock, now);
      StageKeepsChallenges(db, clock, op, now);
    } else {
      OwnershipAges(db, clock, now);
    }
  }

  lemma SwitchKeepsChain(created: Time, ts: seq<Transfer>, started: Time)
    requires ChainOk(created, ts) && ts != [] && ts[|ts| - 1].state == Pending && ts[|ts| - 1].notBefore <= started
    ensures ChainOk(created, ts[|ts| - 1 := ts[|ts| - 1].(state := Completed, effectiveAt := Some(started))])
  {
    var ts' := ts[|ts| - 1 := ts[|ts| - 1].(state := Completed, effectiveAt := Some(started))];
    forall k | 0 <= k < |ts'|
      ensures LinkOk(created, ts', k)
    {
      assert LinkOk(created, ts, k);
    }
  }

  lemma SwitchKeeps(db: Db, clock: Time, id: nat, started: Time, now: Time)
    requires Inv(db, clock) && clock <= now && started <= now
    requires id < |db.transfers| && db.transfers[id].state == Pending && db.transfers[id].notBefore <= started
    ensures Inv(Switch(db, id, started), now)
  {
    var created := db.device.value.createdAt;
    var after := Switch(db, id, started);
    PendingIsLast(created, db.transfers);
    SwitchKeepsChain(created, db.transfers, started);
    OwnerIsUnique(after.members, db.transfers[id].nextOwner);
    forall i | 0 <= i < |after.readings|
      ensures AttributionOk(after, after.readings[i])
    {
      assert AttributionOk(db, db.readings[i]);
    }
  }

  lemma CompleteKeeps(db: Db, clock: Time, id: nat, verifier: Option<bool>, started: Time, now: Time)
    requires Inv(db, clock) && clock <= now && started <= now
    ensures Inv(CompleteDueTransfer(db, id, verifier, started).db, now)
  {
    var after := CompleteDueTransfer(db, id, verifier, started);
    if after.db != db {
      SwitchKeeps(db, clock, id, started, now);
    }
  }

  lemma CommitKeeps(db: Db, clock: Time, op: Op, now: Time)
    requires Inv(db, clock) && Timely(Step(op, now), clock) && op.Commit?
    ensures Inv(CommitAttested(db, op.ticket, op.verified).db, now)
  {
    var ticket := op.ticket;
    var after := CommitAttested(db, ticket, op.verified);
    if after.reply.Accepted? {
      var receipt := Receipt(ticket.deviceUid, ticket.mqttId, ticket.reference, ticket.startedAt);
      var withReceipt := db.(receipts := db.receipts[ticket.transferId := receipt]);
      ReceiptsKeep(db, clock, withReceipt.receipts);
      CompleteKeeps(withReceipt, clock, ticket.transferId, Some(op.verified), ticket.startedAt, now);
    } else {
      OwnershipAges(db, clock, now);
    }
  }

  lemma ClaimKeepsOwner(db: Db, after: Db, user: UserId, clock: Time, now: Time)
    requires OwnershipOk(db, clock) && clock < now
    requires OwnerOf(db.members).None? || OwnerOf(db.members) == Some(user)
    requires after.device.Some? && after.members == db.members[user := Owner]
    requires after.device.value.createdAt == if db.device.Some? then db.device.value.createdAt else now
    requires after.transfers == db.transfers
    ensures OwnershipOk(after, now) && OwnerOf(after.members) == Some(user)
  {
    forall u | IsOwner(after.members, u)
      ensures u == user
    {
      if u != user {
        assert IsOwner(db.members, u);
        OwnerIsUnique(db.members, u);
      }
    }
    OwnerIsUnique(after.members, user);
  }

  lemma ClaimKeeps(db: Db, clock: Time, op: Op, now: Time)
    requires Inv(db, clock) && clock < now && op.Claim?
    ensures Inv(ClaimDevice(db, op.user, op.uid, op.mqttId, op.mqttTaken, now).db, now)
  {
    var after := ClaimDevice(db, op.user, op.uid, op.mqttId, op.mqttTaken, now);
    ChallengesFramed(db, after.db, clock, now);
    if after.reply.Accepted? {
      ClaimKeepsOwner(db, after.db, op.user, clock, now);
    } else {
      OwnershipFramed(db, after.db, clock, now);
    }
    ReadingsFramed(db, after.db, clock, now);
  }

  lemma MembersKeep(db: Db, members: map<UserId, Role>, clock: Time, now: Time)
    requires Inv(db, clock) && clock < now && db.device.Some?
    requires forall u :: IsOwner(db.members, u) <==> IsOwner(members, u)
    ensures Inv(db.(members := members), now)
  {
    SameOwner(db.members, members);
    ReadingsFramed(db, db.(members := members), clock, now);
  }

  lemma InviteKeeps(db: Db, clock: Time, op: Op, now: Time)
    requires Inv(db, clock) && clock < now && op.Invite?
    ensures Inv(AddMember(db, op.actor, op.user).db, now)
  {
    if AddMember(db, op.actor, op.user).reply.Accepted? {
      MembersKeep(db, db.members[op.user := Member], clock, now);
    } else {
      OwnershipAges(db, clock, now);
    }
  }

  lemma DismissKeeps(db: Db, clock: Time, op: Op, now: Time)
    requires Inv(db, clock) && clock < now && op.Dismiss?
    ensures Inv(RemoveMember(db, op.actor, op.user).db, now)
  {
    if RemoveMember(db, op.actor, op.user).reply.Accepted? {
      MembersKeep(db, db.members - {op.user}, clock, now);
    }
  }

  /** A reading attributed to the resolved epoch belongs to the current one. */
  lemma ResolvedIsCurrent(db: Db, clock: Time, channel: string, measuredAt: Time, now: Time)
    requires OwnershipOk(db, clock) && clock < now
    requires var epoch := ResolveOwnerEpoch(db, channel); epoch.Some? && MeasuredInEpoch(epoch.value, measuredAt)
    ensures var epoch := ResolveOwnerEpoch(db, channel).value;
            AttributionOk(db, Reading(channel, measuredAt, epoch.owner, epoch.transferId, now))
  {
    var created, n := db.device.value.createdAt, |db.transfers|;
    PendingIsLast(created, db.transfers);
    CompletedAreThePrefix(created, db.transfers);
    assert n > 0 ==> LinkOk(created, db.transfers, n - 1);
  }

  lemma MoreReadings(db: Db, after: Db, clock: Time, r: Reading, now: Time)
    requires ReadingsOk(db, clock) && clock <= now && AttributionOk(db, r) && r.attributedAt <= now
    requires after == db.(readings := db.readings + [r])
    ensures ReadingsOk(after, now)
  {
    forall i | 0 <= i < |after.readings|
      ensures AttributionOk(after, after.readings[i]) && after.readings[i].attributedAt <= now
    {
      if i < |db.readings| {
        assert AttributionOk(db, db.readings[i]);
      }
    }
  }

  lemma StoreKeeps(db: Db, clock: Time, op: Op, now: Time)
    requires Inv(db, clock) && clock < now && op.Store?
    ensures Inv(StoreReading(db, op.channel, op.measuredAt, now).db, now)
  {
    var after := StoreReading(db, op.channel, op.measuredAt, now);
    OwnershipFramed(db, after.db, clock, now);
    ChallengesFramed(db, after.db, clock, now);
    if after.reply.Accepted? {
      ResolvedIsCurrent(db, clock, op.channel, op.measuredAt, now);
      MoreReadings(db, after.db, clock, after.db.readings[|db.readings|], now);
    } else {
      ReadingsFramed(db, after.db, clock, now);
    }
  }

  lemma OthersKeep(db: Db, clock: Time, op: Op, now: Time)
    requires Inv(db, clock) && clock < now && (op.SetUser? || op.SetAlarmRules? || op.WriteReceipt?)
    ensures Inv(Apply(db, op, now).db, now)
  {
    ReadingsFramed(db, Apply(db, op, now).db, clock, now);
  }

  lemma StepKeeps(db: Db, clock: Time, step: Step)
    requires Inv(db, clock) && Timely(step, clock)
    ensures Inv(Apply(db, step.op, step.now).db, step.now)
  {
    var op, now := step.op, step.now;
    match op
    case Issue(_, _, _, _) => IssueKeeps(db, clock, op, now);
    case Stage(_, _, _, _, _, _) => StageKeeps(db, clock, op, now);
    case Finalize(id, verifier) => CompleteKeeps(db, clock, id, verifier, now, now);
    case Commit(_, _) => CommitKeeps(db, clock, op, now);
    case Claim(_, _, _, _) => ClaimKeeps(db, clock, op, now);
    case Invite(_, _) => InviteKeeps(db, clock, op, now);
    case Dismiss(_, _) => DismissKeeps(db, clock, op, now);
    case Store(_, _) => StoreKeeps(db, clock, op, now);
    case _ => OthersKeep(db, clock, op, now);
  }

  lemma {:induction false} RunKeeps(db: Db, clock: Time, steps: seq<Step>)
    requires Inv(db, clock) && TimelyRun(steps, clock)
    ensures Inv(Run(db, steps), EndClock(steps, clock))
    decreases |steps|
  {
    if steps != [] {
      StepKeeps(db, clock, steps[0]);
      RunKeeps(Apply(db, steps[0].op, steps[0].now).db, steps[0].now, steps[1..]);
    }
  }

  lemma {:induction false} EveryRunIsSafe(users: map<UserId, User>, steps: seq<Step>, clock: Time)
    requires TimelyRun(steps, clock)
    ensures Inv(Run(Empty(users), steps), EndClock(steps, clock))
  {
    RunKeeps(Empty(users), clock, steps);
  }

  // ---- main results --------------------------------------------------------

  predicate IsLive(c: Challenge, instant: Time) {
    c.consumedAt.None? && c.createdAt <= instant < c.expiresAt
  }

  predicate Alive(challenges: map<string, Challenge>, id: string, instant: Time) {
    id in challenges && IsLive(challenges[id], instant)
  }

  /** One pending transfer, one owner, one live challenge at any later instant. */
  lemma AtMostOneOfEach(db: Db, clock: Time, instant: Time)
    requires Inv(db, clock)
    ensures db.device.Some? ==> OwnerOf(db.members).Some?
    ensures forall u, v :: IsOwner(db.members, u) && IsOwner(db.members, v) ==> u == v
    ensures forall k :: 0 <= k < |db.transfers| - 1 ==> db.transfers[k].state != Pending
    ensures forall a, b :: Alive(db.challenges, a, instant) && Alive(db.challenges, b, instant) ==> a == b
  {
    if db.device.Some? {
      PendingIsLast(db.device.value.createdAt, db.transfers);
    }
    forall a, b | Alive(db.challenges, a, instant) && Alive(db.challenges, b, instant)
      ensures a == b
    {
      if a != b {
        assert IsOpen(db.challenges, a) && IsOpen(db.challenges, b);
      }
    }
  }

  /** Generations grow in staging order, and a challenge backs one transfer at most. */
  lemma StagedRowsAreDistinct(db: Db, clock: Time, j: nat, k: nat)
    requires Inv(db, clock) && j < k < |db.transfers|
    ensures db.transfers[j].generation < db.transfers[k].generation
    ensures db.transfers[j].requestedAt < db.transfers[k].requestedAt
    ensures db.transfers[j].challengeId != db.transfers[k].challengeId
  {
    var created := db.device.value.createdAt;
    GenerationsIncrease(created, db.transfers, j, k);
    EffectiveIncreases(created, db.transfers, j, k);
    assert LinkOk(created, db.transfers, j);
  }

  /** Refused calls, and retries of a completed transfer, leave every row as it was. */
  lemma RefusalChangesNothing(db: Db, op: Op, now: Time)
    ensures Apply(db, op, now).reply.Rejected? ==> Apply(db, op, now).db == db
    ensures op.Finalize? && op.id < |db.transfers| && db.transfers[op.id].state == Completed ==>
              Apply(db, op, now).db == db
  {
    match op
    case Finalize(_, _) =>
    case Commit(_, _) =>
    case _ =>
  }

  /** What a switch of owner proves about the transfer that caused it. */
  ghost predicate LawfulSwitch(db: Db, after: Db, now: Time) {
    var n := |db.transfers|;
    && n > 0
    && |after.transfers| == n
    && n - 1 in after.receipts
    && db.device.Some?
    && var was, t := db.transfers[n - 1], after.transfers[n - 1];
       && was.state == Pending
       && t.state == Completed
       && t.effectiveAt.Some?
       && after == db.(
            members := map[t.nextOwner := Owner],
            device := Some(db.device.value.(name := None)),
            channels := map c | c in db.channels :: None,
            alarmRules := None,
            transfers := db.transfers[n - 1 := was.(state := Completed, effectiveAt := t.effectiveAt)],
            receipts := db.receipts[n - 1 := after.receipts[n - 1]],
            notices := db.notices + [Notice(n - 1, was.previousOwner, CompletedPhase, t.effectiveAt.value),
                                     Notice(n - 1, was.nextOwner, CompletedPhase, t.effectiveAt.value)])
       && OwnerOf(db.members) == Some(was.previousOwner)
       && OwnerOf(after.members) == Some(was.nextOwner)
       && was.previousOwner !in after.members
       && was.requestedAt + TRANSFER_DELAY <= t.effectiveAt.value <= now
       && after.receipts[n - 1].deviceUid == db.device.value.uid
       && Some(after.receipts[n - 1].mqttId) == db.device.value.mqttId
       && was.requestedAt <= after.receipts[n - 1].verifiedAt <= t.effectiveAt.value
       && t.effectiveAt.value - after.receipts[n - 1].verifiedAt <= MAX_IDENTITY_CHECK_AGE
       && !IsBlank(after.receipts[n - 1].reference)
  }

  lemma CompletionIsLawful(db: Db, clock: Time, id: nat, verifier: Option<bool>, started: Time, now: Time)
    requires Inv(db, clock) && started <= now
    ensures var after := CompleteDueTransfer(db, id, verifier, started).db;
            after == db || LawfulSwitch(db, after, now)
  {
    var after := CompleteDueTransfer(db, id, verifier, started).db;
    if after != db {
      PendingIsLast(db.device.value.createdAt, db.transfers);
      assert LinkOk(db.device.value.createdAt, db.transfers, id);
      OwnerIsUnique(after.members, db.transfers[id].nextOwner);
    }
  }

  lemma ReceiptsKeep(db: Db, clock: Time, receipts: map<nat, Receipt>)
    requires Inv(db, clock)
    ensures Inv(db.(receipts := receipts), clock)
  {
    ReadingsFramed(db, db.(receipts := receipts), clock, clock);
  }

  lemma ReceiptIsPartOfSwitch(db: Db, id: nat, receipt: Receipt, after: Db, now: Time)
    requires id == |db.transfers| - 1 && LawfulSwitch(db.(receipts := db.receipts[id := receipt]), after, now)
    ensures LawfulSwitch(db, after, now)
  {
  }

  lemma CommitIsLawful(db: Db, clock: Time, op: Op, now: Time)
    requires Inv(db, clock) && Timely(Step(op, now), clock) && op.Commit?
    ensures var after := CommitAttested(db, op.ticket, op.verified).db;
            after == db || LawfulSwitch(db, after, now)
  {
    var ticket := op.ticket;
    if CommitAttested(db, ticket, op.verified).reply.Accepted? {
      var receipt := Receipt(ticket.deviceUid, ticket.mqttId, ticket.reference, ticket.startedAt);
      ReceiptsKeep(db, clock, db.receipts[ticket.transferId := receipt]);
      PendingIsLast(db.device.value.createdAt, db.transfers);
      CompletionIsLawful(db.(receipts := db.receipts[ticket.transferId := receipt]), clock, ticket.transferId,
          Some(op.verified), ticket.startedAt, now);
      ReceiptIsPartOfSwitch(db, ticket.transferId, receipt, CommitAttested(db, ticket, op.verified).db, now);
    }
  }

  ghost predicate SwitchesOwner(before: Db, after: Db) {
    before.device.Some? && OwnerOf(before.members) != OwnerOf(after.members)
  }

  function CompletedCount(ts: seq<Transfer>): nat {
    if ts == [] then 0
    else CompletedCount(ts[..|ts| - 1]) + if ts[|ts| - 1].state == Completed then 1 else 0
  }

  /** Rows of completed transfers are history: no step rewrites one. */
  ghost predicate HistoryKept(before: seq<Transfer>, after: seq<Transfer>) {
    && |before| <= |after|
    && forall k :: 0 <= k < |before| && before[k].state == Completed ==> after[k] == before[k]
  }

  /** Ownership moves only by lawfully completing the pending transfer. */
  ghost predicate LawKept(db: Db, after: Db, now: Time) {
    && HistoryKept(db.transfers, after.transfers)
    && (if SwitchesOwner(db, after)
        then LawfulSwitch(db, after, now) && CompletedCount(after.transfers) == CompletedCount(db.transfers) + 1
        else CompletedCount(after.transfers) == CompletedCount(db.transfers))
  }

  /** With any number of workers, whatever their tickets, every step keeps the law. */
  lemma OwnershipLaw(db: Db, clock: Time, step: Step)
    requires Inv(db, clock) && Timely(step, clock)
    ensures LawKept(db, Apply(db, step.op, step.now).db, step.now)
  {
    var op, now := step.op, step.now;
    match op
    case Issue(_, _, _, _) => IssueMovesNothing(db, op, now);
    case Stage(_, _, _, _, _, _) => StageMovesNothing(db, op, now);
    case Finalize(id, verifier) =>
      CompletionIsLawful(db, clock, id, verifier, now, now);
      SwitchCounts(db, CompleteDueTransfer(db, id, verifier, now).db, clock, now);
    case Commit(_, _) =>
      CommitIsLawful(db, clock, op, now);
      SwitchCounts(db, CommitAttested(db, op.ticket, op.verified).db, clock, now);
    case Claim(_, _, _, _) => ClaimMovesNothing(db, clock, op, now);
    case Invite(_, _) => InviteMovesNothing(db, clock, op, now);
    case Dismiss(_, _) => DismissMovesNothing(db, clock, op, now);
    case Store(_, _) => StoreMovesNothing(db, op, now);
    case _ => OthersMoveNothing(db, op, now);
  }

  lemma IssueMovesNothing(db: Db, op: Op, now: Time)
    requires op.Issue?
    ensures LawKept(db, IssueResetChallenge(db, op.uid, op.requestedBy, op.challengeId, op.digest, now).db, now)
  {
  }

  lemma StoreMovesNothing(db: Db, op: Op, now: Time)
    requires op.Store?
    ensures LawKept(db, StoreReading(db, op.channel, op.measuredAt, now).db, now)
  {
  }

  lemma OthersMoveNothing(db: Db, op: Op, now: Time)
    requires op.SetUser? || op.SetAlarmRules? || op.WriteReceipt?
    ensures LawKept(db, Apply(db, op, now).db, now)
  {
  }

  lemma SwitchCounts(db: Db, after: Db, clock: Time, now: Time)
    requires Inv(db, clock) && (after == db || LawfulSwitch(db, after, now))
    ensures LawKept(db, after, now) && (SwitchesOwner(db, after) <==> after != db)
  {
    if after != db {
      var n := |db.transfers|;
      assert LinkOk(db.device.value.createdAt, db.transfers, n - 1);
      assert after.transfers[..n - 1] == db.transfers[..n - 1];
    }
  }

  lemma StageMovesNothing(db: Db, op: Op, now: Time)
    requires op.Stage?
    ensures LawKept(db, Staged(db, op, now).db, now)
  {
    var after := Staged(db, op, now).db;
    if after != db {
      assert after.transfers[..|db.transfers|] == db.transfers;
    }
  }

  lemma ClaimMovesNothing(db: Db, clock: Time, op: Op, now: Time)
    requires Inv(db, clock) && clock < now && op.Claim?
    ensures LawKept(db, ClaimDevice(db, op.user, op.uid, op.mqttId, op.mqttTaken, now).db, now)
  {
    var after := ClaimDevice(db, op.user, op.uid, op.mqttId, op.mqttTaken, now);
    if after.reply.Accepted? {
      ClaimKeepsOwner(db, after.db, op.user, clock, now);
    }
  }

  lemma InviteMovesNothing(db: Db, clock: Time, op: Op, now: Time)
    requires Inv(db, clock) && op.Invite?
    ensures LawKept(db, AddMember(db, op.actor, op.user).db, now)
  {
    var after := AddMember(db, op.actor, op.user).db;
    assert forall u :: IsOwner(db.members, u) <==> IsOwner(after.members, u);
    SameOwner(db.members, after.members);
  }

  lemma DismissMovesNothing(db: Db, clock: Time, op: Op, now: Time)
    requires Inv(db, clock) && op.Dismiss?
    ensures LawKept(db, RemoveMember(db, op.actor, op.user).db, now)
  {
    var after := RemoveMember(db, op.actor, op.user).db;
    assert forall u :: IsOwner(db.members, u) <==> IsOwner(after.members, u);
    SameOwner(db.members, after.members);
  }

  ghost function SwitchCount(db: Db, steps: seq<Step>): nat
    decreases |steps|
  {
    if steps == [] then 0
    else
      var after := Apply(db, steps[0].op, steps[0].now).db;
      SwitchCount(after, steps[1..]) + if SwitchesOwner(db, after) then 1 else 0
  }

  /** Over a whole run, owners change exactly as often as transfers complete. */
  lemma {:induction false} SwitchesAreCompletions(db: Db, clock: Time, steps: seq<Step>)
    requires Inv(db, clock) && TimelyRun(steps, clock)
    ensures CompletedCount(Run(db, steps).transfers) == CompletedCount(db.transfers) + SwitchCount(db, steps)
    ensures HistoryKept(db.transfers, Run(db, steps).transfers)
    decreases |steps|
  {
    if steps != [] {
      OwnershipLaw(db, clock, steps[0]);
      StepKeeps(db, clock, steps[0]);
      SwitchesAreCompletions(Apply(db, steps[0].op, steps[0].now).db, steps[0].now, steps[1..]);
    }
  }
}
