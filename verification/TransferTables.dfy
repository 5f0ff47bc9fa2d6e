/**
 The same transactions as they run: methods that query the rows, update them
 in place and roll back on refusal. Each is proved to compute exactly the
 specification function of TransferModel.
 */
module TransferTables {
  import opened Basics
  import opened TransferModel

  class Tables {
    var device: Option<Device>
    var users: map<UserId, User>
    var members: map<UserId, Role>
    var channels: map<string, Option<string>>
    var alarmRules: Option<string>
    var transfers: seq<Transfer>
    var challenges: map<string, Challenge>
    var receipts: map<nat, Receipt>
    var notices: seq<Notice>
    var readings: seq<Reading>

    ghost function Rows(): Db
      reads this
    {
      Db(device, users, members, channels, alarmRules, transfers, challenges, receipts, notices, readings)
    }

    /** The constraints the schema itself enforces. */
    ghost predicate Valid()
      reads this
    {
      && AtMostOneOwner(members)
      && forall k :: 0 <= k < |transfers| ==> transfers[k].id == k
    }

    constructor (users: map<UserId, User>)
      ensures Valid()
      ensures Rows() == Db(None, users, map[], map[], None, [], map[], map[], [], [])
    {
      device, this.users, members, channels, alarmRules := None, users, map[], map[], None;
      transfers, challenges, receipts, notices, readings := [], map[], map[], [], [];
    }

    // ---- queries -----------------------------------------------------------

    method FindOwner() returns (owner: Option<UserId>)
      requires Valid()
      ensures owner == OwnerOf(members)
    {
      owner := None;
      var rest := members.Keys;
      while rest != {}
        invariant rest <= members.Keys
        invariant owner.Some? ==> IsOwner(members, owner.value)
        invariant owner.None? ==> forall u :: u in members.Keys - rest ==> !IsOwner(members, u)
        decreases rest
      {
        var user :| user in rest;
        if members[user] == Owner { owner := Some(user); }
        rest := rest - {user};
      }
    }

    method FindPending() returns (found: bool)
      ensures found == HasPending(transfers)
    {
      found := false;
      for i := 0 to |transfers|
        invariant found == HasPending(transfers[..i])
      {
        assert transfers[..i + 1] == transfers[..i] + [transfers[i]];
        if transfers[i].state == Pending {
          assert transfers[..i + 1][i].state == Pending;
          found := true;
        } else if found {
          var k :| 0 <= k < i && transfers[..i][k].state == Pending;
          assert transfers[..i + 1][k].state == Pending;
        }
      }
      assert transfers[..|transfers|] == transfers;
    }

    method Access(user: UserId, role: Role) returns (denied: Option<Rejection>)
      ensures denied == TransferAccess(transfers, user, role)
    {
      var pending := FindPending();
      if pending { return Some(AlreadyPending); }
      var latest := LatestCompleted(transfers);
      if latest.Some? && (latest.value.effectiveAt.None? || role != Owner || latest.value.nextOwner != user) {
        return Some(Forbidden);
      }
      return None;
    }

    // ---- store -------------------------------------------------------------

    method IssueChallenge(uid: string, requestedBy: Option<UserId>, challengeId: string, digest: string, now: Time)
      returns (reply: Reply)
      requires Valid()
      modifies this
      ensures Valid()
      ensures Outcome(Rows(), reply) == IssueResetChallenge(old(Rows()), uid, requestedBy, challengeId, digest, now)
    {
      if device.None? || device.value.uid != uid { return Rejected(DeviceMissing); }
      var pending := FindPending();
      if pending { return Rejected(AlreadyPending); }
      var rest := challenges.Keys;
      while rest != {}
        invariant rest <= challenges.Keys
        invariant forall id :: id in challenges.Keys - rest ==>
                    challenges[id].consumedAt.Some? || challenges[id].expiresAt <= now
        decreases rest
      {
        var id :| id in rest;
        if challenges[id].consumedAt.None? && now < challenges[id].expiresAt { return Rejected(ChallengeActive); }
        rest := rest - {id};
      }
      if challengeId in challenges || exists id :: id in challenges && challenges[id].digest == digest {
        return Rejected(Conflict);
      }
      challenges := challenges[challengeId := Challenge(requestedBy, digest, now, now + CHALLENGE_LIFETIME, None)];
      return Accepted;
    }

    method Stage(
      uid: string, next: UserId, generation: int, challengeId: string, digest: string, tagValid: bool, now: Time)
      returns (reply: Reply)
      requires Valid()
      modifies this
      ensures Valid()
      ensures Outcome(Rows(), reply)
           == StageVerifiedTransfer(old(Rows()), uid, next, generation, challengeId, digest, tagValid, now)
    {
      if device.None? || device.value.uid != uid { return Rejected(DeviceMissing); }
      var owner := FindOwner();
      if owner.None? || next !in users { return Rejected(OwnerMissing); }
      if owner.value == next || !Eligible(users, next) { return Rejected(NextOwnerIneligible); }
      var pending := FindPending();
      if pending { return Rejected(AlreadyPending); }
      if generation <= LastGeneration(transfers) { return Rejected(GenerationUsed); }
      if challengeId !in challenges { return Rejected(ChallengeUnusable); }
      var challenge := challenges[challengeId];
      if challenge.consumedAt.Some? || challenge.expiresAt <= now { return Rejected(ChallengeUnusable); }
      if challenge.requestedBy.Some? && challenge.requestedBy.value != next { return Rejected(ChallengeForeign); }
      if challenge.digest != digest || !tagValid { return Rejected(ProofInvalid); }
      if generation <= 0 || exists k :: 0 <= k < |transfers| && transfers[k].challengeId == challengeId {
        return Rejected(Conflict);
      }
      var id := |transfers|;
      challenges := challenges[challengeId := challenge.(consumedAt := Some(now))];
      transfers := transfers
          + [Transfer(id, owner.value, next, challengeId, generation, Pending, now, now + TRANSFER_DELAY, None)];
      notices := notices + [Notice(id, owner.value, PendingPhase, now)];
      return Accepted;
    }

    // ---- finalizer ---------------------------------------------------------

    method CheckReceipt(t: Transfer, now: Time) returns (valid: bool)
      ensures valid == ReceiptValid(Rows(), t, now)
    {
      if t.id !in receipts || device.None? || device.value.mqttId.None? || device.value.mqttId.value == "" {
        return false;
      }
      var r := receipts[t.id];
      return
        && r.deviceUid == device.value.uid
        && r.mqttId == device.value.mqttId.value
        && !IsBlank(r.reference)
        && t.requestedAt <= r.verifiedAt
        && r.verifiedAt <= now
        && now - r.verifiedAt <= MAX_IDENTITY_CHECK_AGE;
    }

    method Complete(id: nat, verifier: Option<bool>, now: Time) returns (reply: Reply)
      requires Valid()
      modifies this
      ensures Valid()
      ensures Outcome(Rows(), reply) == CompleteDueTransfer(old(Rows()), id, verifier, now)
    {
      if id >= |transfers| { return Rejected(TransferNotFound); }
      if device.None? { return Rejected(DeviceMissing); }
      var t := transfers[id];
      var owner := FindOwner();
      if t.state == Completed {
        if t.effectiveAt.None? || owner != Some(t.nextOwner) || t.previousOwner in members {
          return Rejected(CompletedInconsistent);
        }
        return Accepted;
      }
      if t.state != Pending { return Rejected(NotPending); }
      if t.requestedAt >= t.notBefore { return Rejected(DeadlineInconsistent); }
      if now < t.notBefore { return Rejected(DelayNotElapsed); }
      var attested := CheckReceipt(t, now);
      if !attested { return Rejected(IdentityRequired); }
      if verifier != Some(true) { return Rejected(VerifierRequired); }
      if owner != Some(t.previousOwner) { return Rejected(PreviousOwnerInconsistent); }
      if !Eligible(users, t.nextOwner) { return Rejected(NextOwnerIneligible); }
      SwitchOwner(t, now);
      return Accepted;
    }

    /** Old owner and invited members lose access together; names and alarm rules go too. */
    method SwitchOwner(t: Transfer, now: Time)
      requires Valid() && device.Some? && t.id < |transfers| && transfers[t.id] == t
      modifies this
      ensures Valid()
      ensures Rows() == Switch(old(Rows()), t.id, now)
    {
      DeleteMemberships();
      alarmRules := None;
      members := members[t.nextOwner := Owner];
      device := Some(device.value.(name := None));
      ClearChannelNames();
      transfers := transfers[t.id := t.(state := Completed, effectiveAt := Some(now))];
      notices := notices
          + [Notice(t.id, t.previousOwner, CompletedPhase, now), Notice(t.id, t.nextOwner, CompletedPhase, now)];
    }

    method DeleteMemberships()
      modifies this`members
      ensures members == map[]
    {
      while members != map[]
        decreases members.Keys
      {
        var user :| user in members;
        members := members - {user};
      }
    }

    method ClearChannelNames()
      modifies this`channels
      ensures channels == map key | key in old(channels) :: None
    {
      var rest := channels.Keys;
      while rest != {}
        invariant rest <= channels.Keys == old(channels).Keys
        invariant forall key :: key in channels.Keys - rest ==> channels[key] == None
        decreases rest
      {
        var key :| key in rest;
        channels := channels[key := None];
        rest := rest - {key};
      }
    }

    // ---- broker worker -----------------------------------------------------

    /** First half of the worker: reads only, and holds no lock while the broker answers. */
    method BeginAttestation(id: nat, answer: Option<string>, now: Time) returns (result: Attestation)
      ensures result == Attest(Rows(), id, answer, now)
    {
      if id >= |transfers| { return Refused(TransferNotFound); }
      if transfers[id].state == Completed { return AlreadyCompleted; }
      if transfers[id].state != Pending { return Refused(NotPending); }
      if now < transfers[id].notBefore { return Refused(DelayNotElapsed); }
      if device.None? || device.value.mqttId.None? || device.value.mqttId.value == "" {
          return Refused(IdentityRequired); }
      if answer.None? || !WellFormedReference(answer.value) { return Refused(AttestationRequired); }
      return Attested(Ticket(id, device.value.uid, device.value.mqttId.value, answer.value, now));
    }

    /** Second half, under the row locks, possibly long after the first and on other rows. */
    method CommitAttestation(ticket: Ticket, verified: bool) returns (reply: Reply)
      requires Valid()
      modifies this
      ensures Valid()
      ensures Outcome(Rows(), reply) == CommitAttested(old(Rows()), ticket, verified)
    {
      var id := ticket.transferId;
      if || device.None?
         || id >= |transfers|
         || transfers[id].state != Pending
         || device.value.uid != ticket.deviceUid
         || device.value.mqttId != Some(ticket.mqttId)
      {
        return Rejected(TransferChanged);
      }
      if exists k :: k in receipts && k != id && receipts[k].reference == ticket.reference {
        return Rejected(Conflict);
      }
      var savepoint := receipts;
      receipts := receipts[id := Receipt(ticket.deviceUid, ticket.mqttId, ticket.reference, ticket.startedAt)];
      reply := Complete(id, Some(verified), ticket.startedAt);
      if reply.Rejected? {
        receipts := savepoint;
      }
    }

    // ---- claim and members -------------------------------------------------

    method Claim(user: UserId, uid: string, mqttId: string, mqttTaken: bool, now: Time) returns (reply: Reply)
      requires Valid()
      modifies this
      ensures Valid()
      ensures Outcome(Rows(), reply) == ClaimDevice(old(Rows()), user, uid, mqttId, mqttTaken, now)
    {
      if !Eligible(users, user) { return Rejected(NotAuthenticated); }
      if device.Some? && device.value.uid != uid { return Rejected(DeviceMissing); }
      if device.Some? {
        var pending := FindPending();
        if pending { return Rejected(AlreadyPending); }
      }
      if mqttTaken { return Rejected(Conflict); }
      var owner := FindOwner();
      if owner.Some? && owner.value != user { return Rejected(OwnedByAnother); }
      if owner.Some? {
        var denied := Access(user, Owner);
        if denied.Some? { return Rejected(Forbidden); }
      }
      if device.None? {
        device := Some(Device(uid, Some(mqttId), None, true, now));
      } else {
        device := Some(device.value.(mqttId := Some(mqttId)));
      }
      MakeOwner(user);
      AddDefaultChannels();
      return Accepted;
    }

    method MakeOwner(user: UserId)
      requires Valid() && forall v :: IsOwner(members, v) ==> v == user
      modifies this`members
      ensures Valid() && members == old(members)[user := Owner]
    {
      if user !in members || members[user] != Owner {
        members := members[user := Owner];
      }
      assert forall v :: IsOwner(members, v) ==> v == user || IsOwner(old(members), v);
    }

    method AddDefaultChannels()
      modifies this`channels
      ensures channels == DEFAULT_CHANNELS + old(channels)
    {
      var rest := DEFAULT_CHANNELS.Keys;
      while rest != {}
        invariant rest <= DEFAULT_CHANNELS.Keys
        invariant channels == (map key | key in DEFAULT_CHANNELS.Keys - rest :: DEFAULT_CHANNELS[key]) + old(channels)
        decreases rest
      {
        var key :| key in rest;
        if key !in channels { channels := channels[key := DEFAULT_CHANNELS[key]]; }
        rest := rest - {key};
      }
    }

    method CheckOwner(actor: UserId) returns (denied: Option<Rejection>)
      ensures denied == RequireOwner(Rows(), actor)
    {
      if device.None? || actor !in members { return Some(NotAvailable); }
      if members[actor] != Owner { return Some(Forbidden); }
      denied := Access(actor, members[actor]);
    }

    method Invite(actor: UserId, user: UserId) returns (reply: Reply)
      requires Valid()
      modifies this
      ensures Valid()
      ensures Outcome(Rows(), reply) == AddMember(old(Rows()), actor, user)
    {
      var denied := CheckOwner(actor);
      if denied.Some? { return Rejected(denied.value); }
      if !Eligible(users, user) { return Rejected(NotAvailable); }
      if user in members { return Rejected(Conflict); }
      if MemberCount(members) >= DEVICE_MEMBER_LIMIT { return Rejected(MemberLimit); }
      members := members[user := Member];
      assert forall v :: IsOwner(members, v) ==> IsOwner(old(members), v);
      return Accepted;
    }

    method Dismiss(actor: UserId, user: UserId) returns (reply: Reply)
      requires Valid()
      modifies this
      ensures Valid()
      ensures Outcome(Rows(), reply) == RemoveMember(old(Rows()), actor, user)
    {
      var denied := CheckOwner(actor);
      if denied.Some? { return Rejected(denied.value); }
      if user !in members || members[user] != Member { return Rejected(NotAvailable); }
      members := members - {user};
      assert forall v :: IsOwner(members, v) ==> IsOwner(old(members), v);
      return Accepted;
    }

    // ---- measurement attribution -------------------------------------------

    method ResolveEpoch(channel: string) returns (epoch: Option<OwnerEpoch>)
      requires Valid()
      ensures epoch == ResolveOwnerEpoch(Rows(), channel)
    {
      if channel !in channels || device.None? || !device.value.isActive { return None; }
      var pending := FindPending();
      if pending { return None; }
      var owner := FindOwner();
      var latest := LatestCompleted(transfers);
      if owner.None? { return None; }
      if latest.None? { return Some(OwnerEpoch(owner.value, None, None)); }
      if latest.value.effectiveAt.None? || latest.value.nextOwner != owner.value { return None; }
      return Some(OwnerEpoch(owner.value, Some(latest.value.id), latest.value.effectiveAt));
    }

    method Store(channel: string, measuredAt: Time, now: Time) returns (reply: Reply)
      requires Valid()
      modifies this
      ensures Valid()
      ensures Outcome(Rows(), reply) == StoreReading(old(Rows()), channel, measuredAt, now)
    {
      var epoch := ResolveEpoch(channel);
      if epoch.None? { return Rejected(MeasurementUnowned); }
      if !MeasuredInEpoch(epoch.value, measuredAt) { return Rejected(PredatesEpoch); }
      if exists k :: 0 <= k < |readings| && readings[k].channel == channel && readings[k].measuredAt == measuredAt {
        return Rejected(Conflict);
      }
      readings := readings + [Reading(channel, measuredAt, epoch.value.owner, epoch.value.transferId, now)];
      return Accepted;
    }
  }
}
