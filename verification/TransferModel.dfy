/**
 The database of one device and every committed transaction of the ownership
 transfer protocol, each as a function from the old rows to the new ones.
 A rejected transaction is rolled back, so it returns the rows it was given.
 */
module TransferModel {
  import opened Basics

  const TRANSFER_DELAY: Time := MINUTE
  const CHALLENGE_LIFETIME: Time := 2 * MINUTE
  const MAX_IDENTITY_CHECK_AGE: Time := 2 * MINUTE
  const DEVICE_MEMBER_LIMIT := 10
  const DEFAULT_CHANNELS: map<string, Option<string>> :=
    map["power_1" := Some("Power"), "power_2" := Some("Power 2"),
        "power_3" := Some("Power 3"), "power_4" := Some("Power 4")]

  type UserId = nat

  datatype Role = Owner | Member
  datatype User = User(isActive: bool, emailVerified: bool)
  datatype Device = Device(uid: string, mqttId: Option<string>, name: Option<string>, isActive: bool, createdAt: Time)
  datatype TransferState = Pending | Completed | Cancelled
  datatype Transfer = Transfer(
    id: nat, previousOwner: UserId, nextOwner: UserId, challengeId: string, generation: int,
    state: TransferState, requestedAt: Time, notBefore: Time, effectiveAt: Option<Time>)
  datatype Challenge = Challenge(
    requestedBy: Option<UserId>, digest: string, createdAt: Time, expiresAt: Time, consumedAt: Option<Time>)
  datatype Receipt = Receipt(deviceUid: string, mqttId: string, reference: string, verifiedAt: Time)
  datatype Phase = PendingPhase | CompletedPhase
  datatype Notice = Notice(transferId: nat, userId: UserId, phase: Phase, createdAt: Time)
  /** One stored measurement together with its immutable attribution row. */
  datatype Reading = Reading(channel: string, measuredAt: Time, owner: UserId, epoch: Option<nat>, attributedAt: Time)

  /** Transfer ids are positions: the primary key grows with every staged row. */
  datatype Db = Db(
    device: Option<Device>, users: map<UserId, User>, members: map<UserId, Role>,
    channels: map<string, Option<string>>, alarmRules: Option<string>, transfers: seq<Transfer>,
    challenges: map<string, Challenge>, receipts: map<nat, Receipt>, notices: seq<Notice>, readings: seq<Reading>)

  datatype Rejection =
    | DeviceMissing | AlreadyPending | ChallengeActive | OwnerMissing | NextOwnerIneligible | GenerationUsed
    | ChallengeUnusable | ChallengeForeign | ProofInvalid | TransferNotFound | NotPending | DeadlineInconsistent
    | DelayNotElapsed | IdentityRequired | VerifierRequired | PreviousOwnerInconsistent | CompletedInconsistent
    | AttestationRequired | TransferChanged | Conflict | NotAuthenticated | OwnedByAnother | Forbidden
    | NotAvailable | MemberLimit | MeasurementUnowned | PredatesEpoch | ArchiveMissing | ArchiveInconsistent

  datatype Reply = Accepted | Rejected(reason: Rejection)
  datatype Outcome = Outcome(db: Db, reply: Reply)

  function Refuse(db: Db, reason: Rejection): Outcome { Outcome(db, Rejected(reason)) }

  // ---- queries -------------------------------------------------------------

  predicate IsOwner(members: map<UserId, Role>, user: UserId) {
    user in members && members[user] == Owner
  }

  /** The partial unique index on owner memberships. */
  ghost predicate AtMostOneOwner(members: map<UserId, Role>) {
    forall u, v :: IsOwner(members, u) && IsOwner(members, v) ==> u == v
  }

  ghost function OwnerOf(members: map<UserId, Role>): (owner: Option<UserId>)
    ensures owner.Some? ==> IsOwner(members, owner.value)
    ensures owner.None? ==> forall u :: !IsOwner(members, u)
  {
    if exists u :: IsOwner(members, u) then
      var u :| IsOwner(members, u);
      Some(u)
    else None
  }

  /** The invited members: every account with access but the owner. */
  function Invited(members: map<UserId, Role>): set<UserId> {
    set u | u in members && members[u] == Member
  }

  function MemberCount(members: map<UserId, Role>): nat { |Invited(members)| }

  predicate Eligible(users: map<UserId, User>, user: UserId) {
    user in users && users[user].isActive && users[user].emailVerified
  }

  ghost predicate HasPending(transfers: seq<Transfer>) {
    exists k :: 0 <= k < |transfers| && transfers[k].state == Pending
  }

  /** ORDER BY effective_at, id with missing dates last. */
  predicate Sooner(a: Transfer, b: Transfer) {
    match (a.effectiveAt, b.effectiveAt)
    case (Some(x), Some(y)) => x < y || (x == y && a.id < b.id)
    case (Some(_), None) => true
    case (None, Some(_)) => false
    case (None, None) => a.id < b.id
  }

  function InsertSooner(t: Transfer, rows: seq<Transfer>): seq<Transfer> {
    if rows == [] then [t]
    else if Sooner(t, rows[0]) then [t] + rows
    else [rows[0]] + InsertSooner(t, rows[1..])
  }

  /** The completed transfers in the order the archive reads them. */
  function CompletedInOrder(transfers: seq<Transfer>): seq<Transfer> {
    if transfers == [] then []
    else
      var last := transfers[|transfers| - 1];
      var earlier := CompletedInOrder(transfers[..|transfers| - 1]);
      if last.state == Completed then InsertSooner(last, earlier) else earlier
  }

  function LatestCompleted(transfers: seq<Transfer>): Option<Transfer> {
    var rows := CompletedInOrder(transfers);
    if rows == [] then None else Some(rows[|rows| - 1])
  }

  /** func.max(reset_generation) or 0. */
  function LastGeneration(transfers: seq<Transfer>): (g: int)
    ensures forall k :: 0 <= k < |transfers| ==> transfers[k].generation <= g
    ensures if transfers == [] then g == 0 else exists k :: 0 <= k < |transfers| && transfers[k].generation == g
  {
    if transfers == [] then 0
    else
      var n := |transfers| - 1;
      var before := LastGeneration(transfers[..n]);
      if n == 0 || before < transfers[n].generation then transfers[n].generation else before
  }

  ghost predicate HasLiveChallenge(challenges: map<string, Challenge>, now: Time) {
    exists id :: id in challenges && challenges[id].consumedAt.None? && now < challenges[id].expiresAt
  }

  // ---- access guard --------------------------------------------------------

  /** The guard of every action on an active device; None lets the caller through. */
  ghost function TransferAccess(transfers: seq<Transfer>, user: UserId, role: Role): Option<Rejection> {
    if HasPending(transfers) then Some(AlreadyPending)
    else
      var latest := LatestCompleted(transfers);
      if latest.Some? && (latest.value.effectiveAt.None? || role != Owner || latest.value.nextOwner != user)
      then Some(Forbidden)
      else None
  }

  // ---- store ---------------------------------------------------------------

  ghost function IssueResetChallenge(
    db: Db, uid: string, requestedBy: Option<UserId>, challengeId: string, digest: string, now: Time): Outcome
  {
    if db.device.None? || db.device.value.uid != uid then Refuse(db, DeviceMissing)
    else if HasPending(db.transfers) then Refuse(db, AlreadyPending)
    else if HasLiveChallenge(db.challenges, now) then Refuse(db, ChallengeActive)
    else if challengeId in db.challenges || (exists id :: id in db.challenges && db.challenges[id].digest == digest)
    then Refuse(db, Conflict)
    else
      var c := Challenge(requestedBy, digest, now, now + CHALLENGE_LIFETIME, None);
      Outcome(db.(challenges := db.challenges[challengeId := c]), Accepted)
  }

  /** `tagValid` is the verdict of the keyed proof check, an opaque cryptographic answer. */
  ghost function StageVerifiedTransfer(
    db: Db, uid: string, next: UserId, generation: int, challengeId: string, digest: string, tagValid: bool,
    now: Time): Outcome
  {
    if db.device.None? || db.device.value.uid != uid then Refuse(db, DeviceMissing)
    else
      var owner := OwnerOf(db.members);
      if owner.None? || next !in db.users then Refuse(db, OwnerMissing)
      else if owner.value == next || !Eligible(db.users, next) then Refuse(db, NextOwnerIneligible)
      else if HasPending(db.transfers) then Refuse(db, AlreadyPending)
      else if generation <= LastGeneration(db.transfers) then Refuse(db, GenerationUsed)
      else if challengeId !in db.challenges then Refuse(db, ChallengeUnusable)
      else
        var c := db.challenges[challengeId];
        if c.consumedAt.Some? || c.expiresAt <= now then Refuse(db, ChallengeUnusable)
        else if c.requestedBy.Some? && c.requestedBy.value != next then Refuse(db, ChallengeForeign)
        else if c.digest != digest || !tagValid then Refuse(db, ProofInvalid)
        else if generation <= 0 || (exists k :: 0 <= k < |db.transfers| && db.transfers[k].challengeId == challengeId)
        then Refuse(db, Conflict)
        else
          var id := |db.transfers|;
          var t := Transfer(id, owner.value, next, challengeId, generation, Pending, now, now + TRANSFER_DELAY, None);
          Outcome(
            db.(transfers := db.transfers + [t],
                challenges := db.challenges[challengeId := c.(consumedAt := Some(now))],
                notices := db.notices + [Notice(id, owner.value, PendingPhase, now)]),
            Accepted)
  }

  // ---- finalizer -----------------------------------------------------------

  predicate IsBlank(text: string) { forall i :: 0 <= i < |text| ==> text[i] in " \t\r\n" }

  ghost predicate ReceiptValid(db: Db, t: Transfer, now: Time) {
    && db.device.Some?
    && t.id in db.receipts
    && var r := db.receipts[t.id];
       && db.device.value.mqttId.Some?
       && db.device.value.mqttId.value != ""
       && r.deviceUid == db.device.value.uid
       && r.mqttId == db.device.value.mqttId.value
       && !IsBlank(r.reference)
       && t.requestedAt <= r.verifiedAt <= now
       && now - r.verifiedAt <= MAX_IDENTITY_CHECK_AGE
  }

  /** What the ownership switch writes, all in one transaction. */
  function Switch(db: Db, id: nat, now: Time): Db
    requires id < |db.transfers| && db.device.Some?
  {
    var t := db.transfers[id];
    db.(members := map[t.nextOwner := Owner],
        alarmRules := None,
        device := Some(db.device.value.(name := None)),
        channels := map c | c in db.channels :: None,
        transfers := db.transfers[id := t.(state := Completed, effectiveAt := Some(now))],
        notices := db.notices + [Notice(id, t.previousOwner, CompletedPhase, now),
                                 Notice(id, t.nextOwner, CompletedPhase, now)])
  }

  /** `verifier` is the live broker answer, None when no verifier is wired. */
  ghost function CompleteDueTransfer(db: Db, id: nat, verifier: Option<bool>, now: Time): Outcome {
    if id >= |db.transfers| then Refuse(db, TransferNotFound)
    else if db.device.None? then Refuse(db, DeviceMissing)
    else
      var t := db.transfers[id];
      var owner := OwnerOf(db.members);
      if t.state == Completed then
        if t.effectiveAt.None? || owner != Some(t.nextOwner) || t.previousOwner in db.members
        then Refuse(db, CompletedInconsistent)
        else Outcome(db, Accepted)
      else if t.state != Pending then Refuse(db, NotPending)
      else if t.requestedAt >= t.notBefore then Refuse(db, DeadlineInconsistent)
      else if now < t.notBefore then Refuse(db, DelayNotElapsed)
      else if !ReceiptValid(db, t, now) then Refuse(db, IdentityRequired)
      else if verifier != Some(true) then Refuse(db, VerifierRequired)
      else if owner != Some(t.previousOwner) then Refuse(db, PreviousOwnerInconsistent)
      else if !Eligible(db.users, t.nextOwner) then Refuse(db, NextOwnerIneligible)
      else Outcome(Switch(db, id, now), Accepted)
  }

  // ---- broker worker -------------------------------------------------------

  /** What a worker carries from its unlocked attestation into its locked commit. */
  datatype Ticket = Ticket(transferId: nat, deviceUid: string, mqttId: string, reference: string, startedAt: Time)
  datatype Attestation = Refused(reason: Rejection) | AlreadyCompleted | Attested(ticket: Ticket)

  predicate WellFormedReference(reference: string) {
    && reference != ""
    && |reference| <= 128
    && reference[0] !in " \t\r\n"
    && reference[|reference| - 1] !in " \t\r\n"
    && '\r' !in reference
    && '\n' !in reference
  }

  function Attest(db: Db, id: nat, answer: Option<string>, now: Time): Attestation {
    if id >= |db.transfers| then Refused(TransferNotFound)
    else if db.transfers[id].state == Completed then AlreadyCompleted
    else if db.transfers[id].state != Pending then Refused(NotPending)
    else if now < db.transfers[id].notBefore then Refused(DelayNotElapsed)
    else if db.device.None? || db.device.value.mqttId.None? || db.device.value.mqttId.value == ""
    then Refused(IdentityRequired)
    else if answer.None? || !WellFormedReference(answer.value) then Refused(AttestationRequired)
    else Attested(Ticket(id, db.device.value.uid, db.device.value.mqttId.value, answer.value, now))
  }

  /** The receipt and the switch share one transaction: a refusal rolls both back. */
  ghost function CommitAttested(db: Db, ticket: Ticket, verified: bool): Outcome {
    if || db.device.None?
       || ticket.transferId >= |db.transfers|
       || db.transfers[ticket.transferId].state != Pending
       || db.device.value.uid != ticket.deviceUid
       || db.device.value.mqttId != Some(ticket.mqttId)
    then Refuse(db, TransferChanged)
    else if exists k :: k in db.receipts && k != ticket.transferId && db.receipts[k].reference == ticket.reference
    then Refuse(db, Conflict)
    else
      var receipt := Receipt(ticket.deviceUid, ticket.mqttId, ticket.reference, ticket.startedAt);
      var withReceipt := db.(receipts := db.receipts[ticket.transferId := receipt]);
      var done := CompleteDueTransfer(withReceipt, ticket.transferId, Some(verified), ticket.startedAt);
      if done.reply.Accepted? then done else Outcome(db, done.reply)
  }

  // ---- claim and members ---------------------------------------------------

  /** `mqttTaken`: the routing identity already belongs to another device. */
  ghost function ClaimDevice(db: Db, user: UserId, uid: string, mqttId: string, mqttTaken: bool, now: Time): Outcome {
    if !Eligible(db.users, user) then Refuse(db, NotAuthenticated)
    else if db.device.Some? && db.device.value.uid != uid then Refuse(db, DeviceMissing)
    else if db.device.Some? && HasPending(db.transfers) then Refuse(db, AlreadyPending)
    else if mqttTaken then Refuse(db, Conflict)
    else
      var owner := OwnerOf(db.members);
      if owner.Some? && owner.value != user then Refuse(db, OwnedByAnother)
      else if owner.Some? && TransferAccess(db.transfers, user, Owner).Some? then Refuse(db, Forbidden)
      else
        var device := if db.device.None? then Device(uid, Some(mqttId), None, true, now)
                      else db.device.value.(mqttId := Some(mqttId));
        Outcome(
          db.(device := Some(device),
              members := db.members[user := Owner],
              channels := DEFAULT_CHANNELS + db.channels),
          Accepted)
  }

  /** Membership routes are reserved to an owner the transfer guard lets through. */
  ghost function RequireOwner(db: Db, actor: UserId): Option<Rejection> {
    if db.device.None? || actor !in db.members then Some(NotAvailable)
    else if db.members[actor] != Owner then Some(Forbidden)
    else TransferAccess(db.transfers, actor, db.members[actor])
  }

  ghost function AddMember(db: Db, actor: UserId, user: UserId): Outcome {
    var denied := RequireOwner(db, actor);
    if denied.Some? then Refuse(db, denied.value)
    else if !Eligible(db.users, user) then Refuse(db, NotAvailable)
    else if user in db.members then Refuse(db, Conflict)
    else if MemberCount(db.members) >= DEVICE_MEMBER_LIMIT then Refuse(db, MemberLimit)
    else Outcome(db.(members := db.members[user := Member]), Accepted)
  }

  ghost function RemoveMember(db: Db, actor: UserId, user: UserId): Outcome {
    var denied := RequireOwner(db, actor);
    if denied.Some? then Refuse(db, denied.value)
    else if user !in db.members || db.members[user] != Member then Refuse(db, NotAvailable)
    else Outcome(db.(members := db.members - {user}), Accepted)
  }

  // ---- measurement attribution ---------------------------------------------

  datatype OwnerEpoch = OwnerEpoch(owner: UserId, transferId: Option<nat>, effectiveAt: Option<Time>)

  ghost function ResolveOwnerEpoch(db: Db, channel: string): Option<OwnerEpoch> {
    if channel !in db.channels || db.device.None? || !db.device.value.isActive then None
    else if HasPending(db.transfers) then None
    else
      var owner := OwnerOf(db.members);
      var latest := LatestCompleted(db.transfers);
      if owner.None? then None
      else if latest.None? then Some(OwnerEpoch(owner.value, None, None))
      else if latest.value.effectiveAt.None? || latest.value.nextOwner != owner.value then None
      else Some(OwnerEpoch(owner.value, Some(latest.value.id), latest.value.effectiveAt))
  }

  predicate MeasuredInEpoch(epoch: OwnerEpoch, measuredAt: Time) {
    epoch.effectiveAt.None? || epoch.effectiveAt.value <= measuredAt
  }

  ghost function StoreReading(db: Db, channel: string, measuredAt: Time, now: Time): Outcome {
    var epoch := ResolveOwnerEpoch(db, channel);
    if epoch.None? then Refuse(db, MeasurementUnowned)
    else if !MeasuredInEpoch(epoch.value, measuredAt) then Refuse(db, PredatesEpoch)
    else if exists k ::
        0 <= k < |db.readings| && db.readings[k].channel == channel && db.readings[k].measuredAt == measuredAt
    then Refuse(db, Conflict)
    else
      Outcome(
        db.(readings := db.readings + [Reading(channel, measuredAt, epoch.value.owner, epoch.value.transferId, now)]),
        Accepted)
  }
}
