/**
 What single calls mean to their callers in the states runs reach: who the guard
 lets through, what a worker's attestation is worth when it commits, how old its
 receipt may be by then, and how many members a device can have.
 */
module TransferCalls {
  import opened Basics
  import opened TransferModel
  import opened TransferSafety

  // ---- the guard -------------------------------------------------------------

  predicate AnyCompleted(ts: seq<Transfer>) { CurrentEpoch(ts) > 0 }

  /** No one during a transfer; after one, the present owner alone. */
  lemma AccessIsExact(db: Db, clock: Time, user: UserId, role: Role)
    requires Inv(db, clock) && db.device.Some?
    ensures TransferAccess(db.transfers, user, role).None?
       <==> !HasPending(db.transfers)
            && (!AnyCompleted(db.transfers) || (role == Owner && OwnerOf(db.members) == Some(user)))
  {
    var created, ts := db.device.value.createdAt, db.transfers;
    CompletedAreThePrefix(created, ts);
    PendingIsLast(created, ts);
    assert ts != [] ==> LinkOk(created, ts, |ts| - 1);
  }

  /** The owner is stopped by a pending transfer and by nothing else. */
  lemma OwnerPassesUnlessFrozen(db: Db, clock: Time, user: UserId)
    requires Inv(db, clock) && db.device.Some? && IsOwner(db.members, user)
    ensures TransferAccess(db.transfers, user, Owner).None? <==> !HasPending(db.transfers)
  {
    OwnerIsUnique(db.members, user);
    AccessIsExact(db, clock, user, Owner);
  }

  // ---- attestation and commit ------------------------------------------------

  /** The rows a ticket speaks of are as its worker saw them. */
  predicate Unmoved(db: Db, later: Db, id: nat) {
    && id < |db.transfers| && id < |later.transfers| && later.transfers[id].state == db.transfers[id].state
    && db.device.Some? && later.device.Some?
    && later.device.value.uid == db.device.value.uid && later.device.value.mqttId == db.device.value.mqttId
  }

  ghost predicate ReferenceUsed(db: Db, id: nat, reference: string) {
    exists k :: k in db.receipts && k != id && db.receipts[k].reference == reference
  }

  /** A ticket is refused as changed exactly when the rows its worker saw have moved; it is never early. */
  lemma TicketDetectsChange(
    db: Db, clock: Time, id: nat, answer: Option<string>, started: Time, later: Db, verified: bool)
    requires Inv(db, clock) && Attest(db, id, answer, started).Attested?
    ensures var ticket := Attest(db, id, answer, started).ticket;
            && ticket.transferId == id && id < |db.transfers|
            && db.transfers[id].requestedAt + TRANSFER_DELAY <= ticket.startedAt == started
            && (CommitAttested(later, ticket, verified).reply == Rejected(TransferChanged) <==> !Unmoved(db, later, id))
  {
    assert LinkOk(db.device.value.createdAt, db.transfers, id);
  }

  lemma GoodReferenceIsNotBlank(reference: string)
    requires WellFormedReference(reference)
    ensures !IsBlank(reference)
  {
    assert reference[0] !in " \t\r\n";
  }

  /**
   On the rows its worker saw, a ticket switches the owner unless the broker, the
   recipient or the reference fails.
   */
  lemma AttestedTicketCommits(db: Db, clock: Time, id: nat, answer: Option<string>, started: Time, verified: bool)
    requires Inv(db, clock) && Attest(db, id, answer, started).Attested?
    ensures CommitAttested(db, Attest(db, id, answer, started).ticket, verified).reply.Accepted?
       <==> verified && Eligible(db.users, db.transfers[id].nextOwner) && !ReferenceUsed(db, id, answer.value)
  {
    var created := db.device.value.createdAt;
    assert LinkOk(created, db.transfers, id);
    PendingIsLast(created, db.transfers);
    GoodReferenceIsNotBlank(answer.value);
  }

  // ---- the age of a receipt --------------------------------------------------

  function Age(db: Db, id: nat, now: Time): Time
    requires id in db.receipts
  {
    now - db.receipts[id].verifiedAt
  }

  /** The receipt behind a switch is fresh at the commit exactly when the worker began within its two minutes. */
  lemma ReceiptIsFreshIff(db: Db, clock: Time, ticket: Ticket, verified: bool, now: Time)
    requires Inv(db, clock) && Timely(Step(Commit(ticket, verified), now), clock)
    requires CommitAttested(db, ticket, verified).reply.Accepted?
    ensures var after, id := Apply(db, Commit(ticket, verified), now).db, ticket.transferId;
            && SwitchesOwner(db, after) && id in after.receipts
            && (Age(after, id, now) <= MAX_IDENTITY_CHECK_AGE <==> now - ticket.startedAt <= MAX_IDENTITY_CHECK_AGE)
  {
    var op := Commit(ticket, verified);
    var after := CommitAttested(db, ticket, verified).db;
    CommitIsLawful(db, clock, op, now);
    assert after.transfers[ticket.transferId].state != db.transfers[ticket.transferId].state;
    SwitchCounts(db, after, clock, now);
  }

  // ---- members ---------------------------------------------------------------

  lemma FewerMembers(small: set<UserId>, large: set<UserId>)
    requires small <= large
    ensures |small| <= |large|
  {
    var rest := large - small;
    assert large == small + rest;
  }

  lemma CompletionInvitesNobody(db: Db, id: nat, verifier: Option<bool>, now: Time)
    ensures Invited(CompleteDueTransfer(db, id, verifier, now).db.members) <= Invited(db.members)
  {
  }

  lemma CommitInvitesNobody(db: Db, ticket: Ticket, verified: bool)
    ensures Invited(CommitAttested(db, ticket, verified).db.members) <= Invited(db.members)
  {
    var receipt := Receipt(ticket.deviceUid, ticket.mqttId, ticket.reference, ticket.startedAt);
    var withReceipt := db.(receipts := db.receipts[ticket.transferId := receipt]);
    CompletionInvitesNobody(withReceipt, ticket.transferId, Some(verified), ticket.startedAt);
  }

  lemma InvitationAddsOne(db: Db, actor: UserId, user: UserId)
    requires MemberCount(db.members) <= DEVICE_MEMBER_LIMIT
    ensures MemberCount(AddMember(db, actor, user).db.members) <= DEVICE_MEMBER_LIMIT
  {
    if AddMember(db, actor, user).reply.Accepted? {
      assert Invited(db.members[user := Member]) == Invited(db.members) + {user};
    }
  }

  lemma StepKeepsMemberLimit(db: Db, op: Op, now: Time)
    requires MemberCount(db.members) <= DEVICE_MEMBER_LIMIT
    ensures MemberCount(Apply(db, op, now).db.members) <= DEVICE_MEMBER_LIMIT
  {
    if op.Invite? {
      InvitationAddsOne(db, op.actor, op.user);
    } else {
      OthersInviteNobody(db, op, now);
      FewerMembers(Invited(Apply(db, op, now).db.members), Invited(db.members));
    }
  }

  lemma OthersInviteNobody(db: Db, op: Op, now: Time)
    requires !op.Invite?
    ensures Invited(Apply(db, op, now).db.members) <= Invited(db.members)
  {
    match op
    case Finalize(id, verifier) => CompletionInvitesNobody(db, id, verifier, now);
    case Commit(ticket, verified) => CommitInvitesNobody(db, ticket, verified);
    case Claim(user, uid, mqttId, taken) => ClaimInvitesNobody(db, user, uid, mqttId, taken, now);
    case _ =>
  }

  lemma ClaimInvitesNobody(db: Db, user: UserId, uid: string, mqttId: string, taken: bool, now: Time)
    ensures Invited(ClaimDevice(db, user, uid, mqttId, taken, now).db.members) <= Invited(db.members)
  {
  }

  /** In every run a device has at most ten invited members. */
  lemma {:induction false} MembersStayWithinLimit(db: Db, steps: seq<Step>)
    requires MemberCount(db.members) <= DEVICE_MEMBER_LIMIT
    ensures MemberCount(Run(db, steps).members) <= DEVICE_MEMBER_LIMIT
    decreases |steps|
  {
    if steps != [] {
      StepKeepsMemberLimit(db, steps[0].op, steps[0].now);
      MembersStayWithinLimit(Apply(db, steps[0].op, steps[0].now).db, steps[1..]);
    }
  }
}
