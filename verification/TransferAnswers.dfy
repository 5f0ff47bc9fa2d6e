/**
 When each call of the protocol is accepted, and what it writes: over every state
 that runs reach, from the rows alone.
 */
module TransferAnswers {
  import opened Basics
  import opened TransferModel
  import opened TransferSafety
  import opened TransferCalls

  predicate Unfrozen(ts: seq<Transfer>) {
    forall k :: 0 <= k < |ts| ==> ts[k].state != Pending
  }

  lemma UnfrozenIff(ts: seq<Transfer>)
    ensures Unfrozen(ts) <==> !HasPending(ts)
  {
  }

  predicate ActiveAndVerified(users: map<UserId, User>, user: UserId) {
    user in users && users[user].isActive && users[user].emailVerified
  }

  // ---- challenges ------------------------------------------------------------

  /** No transfer under way, every unspent challenge two minutes old, and a name and a secret nobody used. */
  predicate MayIssue(db: Db, c: Op, now: Time)
    requires c.Issue?
  {
    && db.device.Some? && db.device.value.uid == c.uid && Unfrozen(db.transfers)
    && (forall id :: id in db.challenges && db.challenges[id].consumedAt.None? ==>
          db.challenges[id].createdAt + 120 * SECOND <= now)
    && c.challengeId !in db.challenges
    && forall id :: id in db.challenges ==> db.challenges[id].digest != c.digest
  }

  lemma IssueIsAcceptedIff(db: Db, clock: Time, c: Op, now: Time)
    requires Inv(db, clock) && c.Issue?
    ensures Apply(db, c, now).reply.Accepted? <==> MayIssue(db, c, now)
    ensures MayIssue(db, c, now) ==>
              Apply(db, c, now).db == db.(challenges := db.challenges[c.challengeId :=
                Challenge(c.requestedBy, c.digest, now, now + 120 * SECOND, None)])
  {
    UnfrozenIff(db.transfers);
  }

  // ---- requests --------------------------------------------------------------

  /** An accepted request adds its row and the owner's notice, and spends its challenge. */
  lemma RequestWrites(db: Db, clock: Time, request: Op, now: Time)
    requires Inv(db, clock) && request.Stage? && Staged(db, request, now).reply.Accepted?
    ensures var after, n := Staged(db, request, now).db, |db.transfers|;
            && request.challengeId in db.challenges && |after.transfers| == n + 1
            && var t, id := after.transfers[n], request.challengeId;
               && t == Transfer(n, t.previousOwner, request.next, id, request.generation, Pending,
                    now, now + 60 * SECOND, None)
               && IsOwner(db.members, t.previousOwner)
               && after == db.(transfers := db.transfers + [t],
                    challenges := db.challenges[id := db.challenges[id].(consumedAt := Some(now))],
                    notices := db.notices + [Notice(n, t.previousOwner, PendingPhase, now)])
  {
  }

  // ---- the switch ------------------------------------------------------------

  /** The receipt is of this device as it is routed now, names the broker's answer, and is two minutes old at most. */
  predicate BackedBy(device: Device, t: Transfer, r: Receipt, now: Time) {
    && r.deviceUid == device.uid
    && device.mqttId == Some(r.mqttId) && |r.mqttId| > 0
    && (exists i :: 0 <= i < |r.reference| && r.reference[i] !in " \t\r\n")
    && t.requestedAt <= r.verifiedAt <= now <= r.verifiedAt + 120 * SECOND
  }

  /** The last row is pending for its minute, backed, confirmed by the broker, and its recipient may own. */
  predicate MaySwitch(db: Db, id: nat, verifier: Option<bool>, now: Time) {
    && id + 1 == |db.transfers| && db.device.Some?
    && var t := db.transfers[id];
       && t.state == Pending && t.requestedAt + 60 * SECOND <= now
       && id in db.receipts && BackedBy(db.device.value, t, db.receipts[id], now)
       && verifier == Some(true)
       && ActiveAndVerified(db.users, t.nextOwner)
  }

  lemma BackedIff(db: Db, t: Transfer, now: Time)
    requires db.device.Some?
    ensures ReceiptValid(db, t, now)
       <==> t.id in db.receipts && BackedBy(db.device.value, t, db.receipts[t.id], now)
  {
  }

  /** The finalizer changes the rows exactly then, and then it switches the owner. */
  lemma SwitchHappensIff(db: Db, clock: Time, id: nat, verifier: Option<bool>, now: Time)
    requires Inv(db, clock)
    ensures var done := CompleteDueTransfer(db, id, verifier, now);
            && (done.db != db <==> MaySwitch(db, id, verifier, now))
            && (done.db != db ==> done.reply.Accepted? && LawfulSwitch(db, done.db, now))
  {
    var done := CompleteDueTransfer(db, id, verifier, now);
    CompletionIsLawful(db, clock, id, verifier, now, now);
    if db.device.Some? && id < |db.transfers| {
      var created := db.device.value.createdAt;
      PendingIsLast(created, db.transfers);
      assert LinkOk(created, db.transfers, id);
      BackedIff(db, db.transfers[id], now);
      if MaySwitch(db, id, verifier, now) {
        assert done.db.transfers[id].state == Completed;
      }
    }
  }

  /** Asked again after its switch, the finalizer accepts and changes nothing, for the last switch alone. */
  lemma RetryIsAcceptedIff(db: Db, clock: Time, id: nat, verifier: Option<bool>, now: Time)
    requires Inv(db, clock) && id < |db.transfers| && db.transfers[id].state == Completed
    ensures var done := CompleteDueTransfer(db, id, verifier, now);
            && done.db == db
            && (done.reply.Accepted? <==>
                 IsOwner(db.members, db.transfers[id].nextOwner) && db.transfers[id].previousOwner !in db.members)
  {
    assert LinkOk(db.device.value.createdAt, db.transfers, id);
  }

  /** A commit writes the ticket's receipt, and the switch is dated when the worker began. */
  lemma CommitWrites(db: Db, ticket: Ticket, verified: bool)
    requires CommitAttested(db, ticket, verified).reply.Accepted?
    ensures var after, id := CommitAttested(db, ticket, verified).db, ticket.transferId;
            && id in after.receipts && id < |after.transfers|
            && after.receipts[id] == Receipt(ticket.deviceUid, ticket.mqttId, ticket.reference, ticket.startedAt)
            && after.transfers[id].effectiveAt == Some(ticket.startedAt)
  {
  }

  // ---- the worker's attestation ----------------------------------------------

  /** One line of one to 128 characters, without blanks at its ends. */
  predicate IsReference(text: string) {
    && 1 <= |text| <= 128
    && text[0] !in " \t\r\n" && text[|text| - 1] !in " \t\r\n"
    && forall i :: 0 <= i < |text| ==> text[i] != '\r' && text[i] != '\n'
  }

  predicate MayAttest(db: Db, id: nat, answer: Option<string>, now: Time) {
    && id < |db.transfers| && db.transfers[id].state == Pending
    && db.transfers[id].requestedAt + 60 * SECOND <= now
    && db.device.Some? && db.device.value.mqttId.Some? && |db.device.value.mqttId.value| > 0
    && answer.Some? && IsReference(answer.value)
  }

  /** A worker gets a ticket exactly then; it has the rows' identities, the broker's answer and the time it began. */
  lemma AttestationIff(db: Db, clock: Time, id: nat, answer: Option<string>, now: Time)
    requires Inv(db, clock)
    ensures Attest(db, id, answer, now).Attested? <==> MayAttest(db, id, answer, now)
    ensures Attest(db, id, answer, now).Attested? ==>
              var ticket := Attest(db, id, answer, now).ticket;
              && ticket.transferId == id && ticket.startedAt == now && Some(ticket.reference) == answer
              && db.device.Some? && ticket.deviceUid == db.device.value.uid
              && Some(ticket.mqttId) == db.device.value.mqttId
  {
    if id < |db.transfers| {
      assert LinkOk(db.device.value.createdAt, db.transfers, id);
    }
  }

  // ---- claims ----------------------------------------------------------------

  /** An unclaimed device, or one's own outside a transfer. */
  predicate MayClaim(db: Db, c: Op)
    requires c.Claim?
  {
    && ActiveAndVerified(db.users, c.user) && !c.mqttTaken
    && (db.device.Some? ==>
          db.device.value.uid == c.uid && Unfrozen(db.transfers) && IsOwner(db.members, c.user))
  }

  /** The claimer is the owner; members, names and creation stay, and the four channels are there. */
  ghost predicate Claimed(db: Db, c: Op, now: Time, after: Db)
    requires c.Claim?
  {
    && after == db.(device := after.device, members := after.members, channels := after.channels)
    && after.device == Some(Device(c.uid, Some(c.mqttId),
         if db.device.Some? then db.device.value.name else None,
         if db.device.Some? then db.device.value.isActive else true,
         if db.device.Some? then db.device.value.createdAt else now))
    && after.members.Keys == db.members.Keys + {c.user} && after.members[c.user] == Owner
    && (forall u :: u in db.members && u != c.user ==> after.members[u] == db.members[u])
    && after.channels.Keys == db.channels.Keys + {"power_1", "power_2", "power_3", "power_4"}
    && forall k :: k in db.channels ==> after.channels[k] == db.channels[k]
  }

  lemma ClaimIsAcceptedIff(db: Db, clock: Time, c: Op, now: Time)
    requires Inv(db, clock) && c.Claim?
    ensures Apply(db, c, now).reply.Accepted? <==> MayClaim(db, c)
  {
    UnfrozenIff(db.transfers);
    if db.device.Some? && IsOwner(db.members, c.user) {
      OwnerIsUnique(db.members, c.user);
      OwnerPassesUnlessFrozen(db, clock, c.user);
    }
  }

  lemma ClaimWrites(db: Db, c: Op, now: Time)
    requires c.Claim? && ClaimDevice(db, c.user, c.uid, c.mqttId, c.mqttTaken, now).reply.Accepted?
    ensures Claimed(db, c, now, ClaimDevice(db, c.user, c.uid, c.mqttId, c.mqttTaken, now).db)
  {
  }

  // ---- members ---------------------------------------------------------------

  predicate MayManage(db: Db, actor: UserId) {
    db.device.Some? && IsOwner(db.members, actor) && Unfrozen(db.transfers)
  }

  /** Only the present owner manages members, and not during a transfer. */
  lemma ManagesIff(db: Db, clock: Time, actor: UserId)
    requires Inv(db, clock)
    ensures RequireOwner(db, actor).None? <==> MayManage(db, actor)
  {
    UnfrozenIff(db.transfers);
    if db.device.Some? && IsOwner(db.members, actor) {
      OwnerPassesUnlessFrozen(db, clock, actor);
    }
  }

  lemma InviteIsAcceptedIff(db: Db, clock: Time, actor: UserId, user: UserId)
    requires Inv(db, clock)
    ensures var done := AddMember(db, actor, user);
            && (done.reply.Accepted? <==>
                 && MayManage(db, actor) && ActiveAndVerified(db.users, user) && user !in db.members
                 && |set u | u in db.members && db.members[u] == Member| < 10)
            && (done.reply.Accepted? ==> done.db == db.(members := db.members[user := Member]))
  {
    ManagesIff(db, clock, actor);
    assert Invited(db.members) == set u | u in db.members && db.members[u] == Member;
  }

  lemma DismissIsAcceptedIff(db: Db, clock: Time, actor: UserId, user: UserId)
    requires Inv(db, clock)
    ensures var done := RemoveMember(db, actor, user);
            && (done.reply.Accepted? <==>
                 MayManage(db, actor) && user in db.members && !IsOwner(db.members, user))
            && (done.reply.Accepted? ==> done.db == db.(members := db.members - {user}))
  {
    ManagesIff(db, clock, actor);
  }

  // ---- readings --------------------------------------------------------------

  /** A known channel of an active device outside a transfer, a date no cutover follows and no reading has. */
  predicate MayStore(db: Db, channel: string, measuredAt: Time) {
    && db.device.Some? && db.device.value.isActive && channel in db.channels && Unfrozen(db.transfers)
    && (forall k :: 0 <= k < |db.transfers| && db.transfers[k].effectiveAt.Some? ==>
          db.transfers[k].effectiveAt.value <= measuredAt)
    && forall k :: 0 <= k < |db.readings| ==>
         db.readings[k].channel != channel || db.readings[k].measuredAt != measuredAt
  }

  /** One reading more, attributed to the present owner and to the last transfer. */
  ghost predicate Attributes(db: Db, channel: string, measuredAt: Time, now: Time, after: Db) {
    var n := |db.readings|;
    && after == db.(readings := after.readings) && |after.readings| == n + 1 && after.readings[..n] == db.readings
    && after.readings[n].channel == channel && after.readings[n].measuredAt == measuredAt
    && after.readings[n].attributedAt == now
    && IsOwner(db.members, after.readings[n].owner)
    && after.readings[n].epoch == if db.transfers == [] then None else Some(|db.transfers| - 1)
  }

  lemma EpochIsResolvedIff(db: Db, clock: Time, channel: string)
    requires Inv(db, clock)
    ensures var epoch, n := ResolveOwnerEpoch(db, channel), |db.transfers|;
            && (epoch.Some? <==>
                 db.device.Some? && db.device.value.isActive && channel in db.channels && Unfrozen(db.transfers))
            && (epoch.Some? ==>
                 && IsOwner(db.members, epoch.value.owner)
                 && epoch.value.transferId == (if n == 0 then None else Some(n - 1))
                 && epoch.value.effectiveAt == (if n == 0 then None else db.transfers[n - 1].effectiveAt)
                 && (n > 0 ==> epoch.value.effectiveAt.Some?))
  {
    UnfrozenIff(db.transfers);
    if db.device.Some? {
      var created, ts := db.device.value.createdAt, db.transfers;
      CompletedAreThePrefix(created, ts);
      PendingIsLast(created, ts);
      assert ts != [] ==> LinkOk(created, ts, |ts| - 1);
    }
  }

  lemma LastCutoverIsLatest(created: Time, ts: seq<Transfer>, at: Time)
    requires ChainOk(created, ts) && ts != [] && ts[|ts| - 1].effectiveAt.Some?
    ensures ts[|ts| - 1].effectiveAt.value <= at
       <==> forall k :: 0 <= k < |ts| && ts[k].effectiveAt.Some? ==> ts[k].effectiveAt.value <= at
  {
    assert LinkOk(created, ts, |ts| - 1);
    forall k | 0 <= k < |ts| - 1
      ensures ts[k].effectiveAt.Some? && ts[k].effectiveAt.value < ts[|ts| - 1].effectiveAt.value
    {
      EffectiveIncreases(created, ts, k, |ts| - 1);
    }
  }

  lemma StoreIsAcceptedIff(db: Db, clock: Time, channel: string, measuredAt: Time, now: Time)
    requires Inv(db, clock)
    ensures StoreReading(db, channel, measuredAt, now).reply.Accepted? <==> MayStore(db, channel, measuredAt)
    ensures MayStore(db, channel, measuredAt) ==>
              Attributes(db, channel, measuredAt, now, StoreReading(db, channel, measuredAt, now).db)
  {
    EpochIsResolvedIff(db, clock, channel);
    if ResolveOwnerEpoch(db, channel).Some? && db.transfers != [] {
      LastCutoverIsLatest(db.device.value.createdAt, db.transfers, measuredAt);
    }
  }
}
