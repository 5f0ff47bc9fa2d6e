/**
 Where every transfer of a run comes from: one accepted request, proven with the
 secret of a challenge that an earlier call issued; and when a request is accepted.
 */
module TransferProvenance {
  import opened Basics
  import opened TransferModel
  import opened TransferSafety

  // ---- the calls of a run ----------------------------------------------------

  /** A call of the run, its answer, and who owned the device when it came. */
  datatype Call = Call(op: Op, now: Time, reply: Reply, owner: Option<UserId>)

  ghost function CallOn(db: Db, step: Step): Call {
    Call(step.op, step.now, Apply(db, step.op, step.now).reply, OwnerOf(db.members))
  }

  ghost function Journal(db: Db, steps: seq<Step>): seq<Call>
    decreases |steps|
  {
    if steps == [] then []
    else [CallOn(db, steps[0])] + Journal(Apply(db, steps[0].op, steps[0].now).db, steps[1..])
  }

  /** Entry i is the answer of the rows that the first i calls leave. */
  lemma {:induction false} JournalAt(db: Db, steps: seq<Step>, i: nat)
    requires i < |steps|
    ensures |Journal(db, steps)| == |steps| && Journal(db, steps)[i] == CallOn(Run(db, steps[..i]), steps[i])
    decreases |steps|
  {
    var after := Apply(db, steps[0].op, steps[0].now).db;
    if i > 0 {
      JournalAt(after, steps[1..], i - 1);
      assert steps[..i][1..] == steps[1..][..i - 1];
    } else if |steps| > 1 {
      JournalAt(after, steps[1..], 0);
    }
  }

  predicate IssueTaken(c: Call) { c.op.Issue? && c.reply.Accepted? }

  predicate StageTaken(c: Call) { c.op.Stage? && c.reply.Accepted? }

  /**
   The call issued the challenge that the request answers, for anyone or for its
   recipient, less than two minutes ago.
   */
  predicate Answers(c: Call, request: Op, now: Time)
    requires request.Stage?
  {
    && IssueTaken(c)
    && c.op.uid == request.uid
    && c.op.challengeId == request.challengeId
    && c.op.digest == request.digest
    && (c.op.requestedBy.None? || c.op.requestedBy == Some(request.next))
    && now < c.now + 120 * SECOND
  }

  /** The proof is valid, and for a challenge of the calls so far. */
  ghost predicate Proven(calls: seq<Call>, request: Op, now: Time)
    requires request.Stage?
  {
    request.tagValid && exists i :: 0 <= i < |calls| && Answers(calls[i], request, now)
  }

  /** The row has what the request asks for, and the delay of one minute. */
  predicate Records(t: Transfer, request: Op, now: Time)
    requires request.Stage?
  {
    && t.nextOwner == request.next
    && t.challengeId == request.challengeId
    && t.generation == request.generation
    && t.requestedAt == now
    && t.notBefore == now + 60 * SECOND
  }

  /** Call j is an accepted request, proven by the calls before it, and row t records it. */
  ghost predicate StagedBy(calls: seq<Call>, j: nat, t: Transfer)
    requires j < |calls|
  {
    && StageTaken(calls[j])
    && Proven(calls[..j], calls[j].op, calls[j].now)
    && Records(t, calls[j].op, calls[j].now)
    && calls[j].owner == Some(t.previousOwner)
  }

  // ---- one call --------------------------------------------------------------

  /** What the broker and the delay may not change in a row. */
  predicate SameRequest(t: Transfer, u: Transfer) {
    && t.previousOwner == u.previousOwner && t.nextOwner == u.nextOwner && t.challengeId == u.challengeId
    && t.generation == u.generation && t.requestedAt == u.requestedAt && t.notBefore == u.notBefore
  }

  ghost predicate SameRequests(before: seq<Transfer>, after: seq<Transfer>) {
    |before| <= |after| && forall k :: 0 <= k < |before| ==> SameRequest(before[k], after[k])
  }

  predicate SameDevice(db: Db, after: Db) {
    db.device.Some? ==> after.device.Some? && after.device.value.uid == db.device.value.uid
  }

  /** Challenges stay, and a challenge is spent only when its row is written. */
  ghost predicate ChallengesStay(db: Db, after: Db) {
    forall id :: id in db.challenges ==>
      && id in after.challenges
      && after.challenges[id].(consumedAt := None) == db.challenges[id].(consumedAt := None)
      && (after.challenges[id].consumedAt != db.challenges[id].consumedAt ==>
            exists k :: 0 <= k < |after.transfers| && after.transfers[k].challengeId == id)
  }

  ghost predicate RequestsKept(db: Db, after: Db) {
    SameRequests(db.transfers, after.transfers) && SameDevice(db, after) && ChallengesStay(db, after)
  }

  lemma UnmovedKeepRequests(db: Db, after: Db)
    requires SameDevice(db, after) && after.transfers == db.transfers && after.challenges == db.challenges
    ensures RequestsKept(db, after)
  {
  }

  lemma CompletionKeepsRequests(db: Db, id: nat, verifier: Option<bool>, now: Time)
    ensures var after := CompleteDueTransfer(db, id, verifier, now).db;
            RequestsKept(db, after) && |after.transfers| == |db.transfers| && after.challenges == db.challenges
  {
  }

  lemma CommitKeepsRequests(db: Db, ticket: Ticket, verified: bool)
    ensures var after := CommitAttested(db, ticket, verified).db;
            RequestsKept(db, after) && |after.transfers| == |db.transfers| && after.challenges == db.challenges
  {
    var receipt := Receipt(ticket.deviceUid, ticket.mqttId, ticket.reference, ticket.startedAt);
    var withReceipt := db.(receipts := db.receipts[ticket.transferId := receipt]);
    CompletionKeepsRequests(withReceipt, ticket.transferId, Some(verified), ticket.startedAt);
  }

  /** The challenge `id` is as that call made it. */
  predicate MadeBy(db: Db, c: Call, id: string) {
    && IssueTaken(c) && c.op.challengeId == id && id in db.challenges
    && db.challenges[id].digest == c.op.digest
    && db.challenges[id].requestedBy == c.op.requestedBy
    && db.challenges[id].createdAt == c.now
    && db.device.Some? && db.device.value.uid == c.op.uid
  }

  /** An accepted issue adds its challenge, unspent. */
  ghost predicate AddsChallenge(db: Db, after: Db, c: Call) {
    && c.op.Issue?
    && MadeBy(after, c, c.op.challengeId)
    && after.challenges[c.op.challengeId].consumedAt.None?
    && after.challenges.Keys == db.challenges.Keys + {c.op.challengeId}
  }

  lemma IssueKeepsRequests(db: Db, step: Step)
    requires step.op.Issue?
    ensures var after, c := Apply(db, step.op, step.now).db, CallOn(db, step);
            && RequestsKept(db, after) && |after.transfers| == |db.transfers|
            && if IssueTaken(c) then AddsChallenge(db, after, c) else after == db
  {
    var after := Apply(db, step.op, step.now).db;
    if IssueTaken(CallOn(db, step)) {
      assert ChallengesStay(db, after);
    } else {
      UnmovedKeepRequests(db, db);
    }
  }

  lemma StageKeepsRequests(db: Db, op: Op, now: Time)
    requires op.Stage?
    ensures var done, n := Staged(db, op, now), |db.transfers|;
            && RequestsKept(db, done.db) && done.db.challenges.Keys == db.challenges.Keys
            && (done.reply.Rejected? ==> done.db == db)
            && (done.reply.Accepted? ==>
                  && |done.db.transfers| == n + 1 && Records(done.db.transfers[n], op, now)
                  && IsOwner(db.members, done.db.transfers[n].previousOwner))
  {
    var done, n := Staged(db, op, now), |db.transfers|;
    if done.reply.Accepted? {
      assert done.db.transfers[n].challengeId == op.challengeId;
    } else {
      UnmovedKeepRequests(db, db);
    }
  }

  lemma OthersKeepRequests(db: Db, op: Op, now: Time)
    requires !op.Issue? && !op.Stage?
    ensures var after := Apply(db, op, now).db;
            RequestsKept(db, after) && |after.transfers| == |db.transfers| && after.challenges == db.challenges
  {
    match op
    case Finalize(id, verifier) => CompletionKeepsRequests(db, id, verifier, now);
    case Commit(ticket, verified) => CommitKeepsRequests(db, ticket, verified);
    case _ =>
      UnmovedKeepRequests(db, Apply(db, op, now).db);
  }

  // ---- the invariant ---------------------------------------------------------

  ghost predicate HasStaging(calls: seq<Call>, t: Transfer) {
    exists j :: 0 <= j < |calls| && StagedBy(calls, j, t)
  }

  ghost predicate HasRow(calls: seq<Call>, j: nat, ts: seq<Transfer>)
    requires j < |calls|
  {
    exists k :: 0 <= k < |ts| && StagedBy(calls, j, ts[k])
  }

  ghost predicate RowsAreTraced(calls: seq<Call>, db: Db) {
    forall k :: 0 <= k < |db.transfers| ==> HasStaging(calls, db.transfers[k])
  }

  ghost predicate RequestsAreRows(calls: seq<Call>, db: Db) {
    forall j :: 0 <= j < |calls| && StageTaken(calls[j]) ==> HasRow(calls, j, db.transfers)
  }

  ghost predicate ChallengesAreTraced(calls: seq<Call>, db: Db) {
    && (forall id :: id in db.challenges ==> exists i :: 0 <= i < |calls| && MadeBy(db, calls[i], id))
    && (forall i :: 0 <= i < |calls| && IssueTaken(calls[i]) ==> MadeBy(db, calls[i], calls[i].op.challengeId))
  }

  ghost predicate SpentAreUsed(db: Db) {
    forall id :: id in db.challenges && db.challenges[id].consumedAt.Some? ==>
      exists k :: 0 <= k < |db.transfers| && db.transfers[k].challengeId == id
  }

  ghost predicate InOrder(calls: seq<Call>, clock: Time) {
    && (forall i :: 0 <= i < |calls| ==> calls[i].now <= clock)
    && forall i, j :: 0 <= i < j < |calls| ==> calls[i].now < calls[j].now
  }

  ghost predicate Traced(calls: seq<Call>, db: Db) {
    RowsAreTraced(calls, db) && RequestsAreRows(calls, db) && ChallengesAreTraced(calls, db) && SpentAreUsed(db)
  }

  // ---- every call keeps it -----------------------------------------------------

  /** A challenge fit for the request, read off the rows. */
  predicate Fits(db: Db, request: Op, now: Time)
    requires request.Stage?
  {
    && db.device.Some? && db.device.value.uid == request.uid
    && request.challengeId in db.challenges
    && var c := db.challenges[request.challengeId];
       && c.digest == request.digest
       && (c.requestedBy.None? || c.requestedBy == Some(request.next))
       && now < c.createdAt + 120 * SECOND
  }

  lemma AcceptedFits(db: Db, clock: Time, request: Op, now: Time)
    requires Inv(db, clock) && request.Stage? && Staged(db, request, now).reply.Accepted?
    ensures Fits(db, request, now) && request.tagValid
  {
  }

  lemma FitIffAnswered(calls: seq<Call>, db: Db, request: Op, now: Time)
    requires request.Stage? && ChallengesAreTraced(calls, db)
    ensures Fits(db, request, now) <==> exists i :: 0 <= i < |calls| && Answers(calls[i], request, now)
  {
    if Fits(db, request, now) {
      var i :| 0 <= i < |calls| && MadeBy(db, calls[i], request.challengeId);
      assert Answers(calls[i], request, now);
    }
    if i :| 0 <= i < |calls| && Answers(calls[i], request, now) {
      assert MadeBy(db, calls[i], calls[i].op.challengeId);
    }
  }

  lemma LaterStagedBy(calls: seq<Call>, c: Call, j: nat, t: Transfer, u: Transfer)
    requires j < |calls| && SameRequest(t, u)
    ensures StagedBy(calls + [c], j, u) == StagedBy(calls, j, t)
  {
    assert (calls + [c])[..j] == calls[..j];
  }

  lemma NewRowIsTraced(calls: seq<Call>, db: Db, clock: Time, step: Step)
    requires ChallengesAreTraced(calls, db) && Inv(db, clock) && StageTaken(CallOn(db, step))
    ensures var after := Apply(db, step.op, step.now).db;
            && |after.transfers| == |db.transfers| + 1
            && StagedBy(calls + [CallOn(db, step)], |calls|, after.transfers[|db.transfers|])
  {
    AcceptedFits(db, clock, step.op, step.now);
    FitIffAnswered(calls, db, step.op, step.now);
    StageKeepsRequests(db, step.op, step.now);
    OwnerIsUnique(db.members, Staged(db, step.op, step.now).db.transfers[|db.transfers|].previousOwner);
    assert (calls + [CallOn(db, step)])[..|calls|] == calls;
  }

  lemma RowsStayTraced(calls: seq<Call>, db: Db, c: Call, after: Db)
    requires RowsAreTraced(calls, db) && RequestsAreRows(calls, db) && SameRequests(db.transfers, after.transfers)
    requires var n := |db.transfers|;
             if StageTaken(c) then |after.transfers| == n + 1 && StagedBy(calls + [c], |calls|, after.transfers[n])
             else |after.transfers| == n
    ensures RowsAreTraced(calls + [c], after) && RequestsAreRows(calls + [c], after)
  {
    var longer := calls + [c];
    forall k | 0 <= k < |after.transfers|
      ensures HasStaging(longer, after.transfers[k])
    {
      if k < |db.transfers| {
        assert HasStaging(calls, db.transfers[k]);
        var j :| 0 <= j < |calls| && StagedBy(calls, j, db.transfers[k]);
        LaterStagedBy(calls, c, j, db.transfers[k], after.transfers[k]);
      }
    }
    forall j | 0 <= j < |longer| && StageTaken(longer[j])
      ensures HasRow(longer, j, after.transfers)
    {
      if j < |calls| {
        assert longer[j] == calls[j] && HasRow(calls, j, db.transfers);
        var k :| 0 <= k < |db.transfers| && StagedBy(calls, j, db.transfers[k]);
        LaterStagedBy(calls, c, j, db.transfers[k], after.transfers[k]);
      }
    }
  }

  lemma ChallengesStayTraced(calls: seq<Call>, db: Db, c: Call, after: Db)
    requires ChallengesAreTraced(calls, db) && RequestsKept(db, after)
    requires if IssueTaken(c) then AddsChallenge(db, after, c) else after.challenges.Keys == db.challenges.Keys
    ensures ChallengesAreTraced(calls + [c], after)
  {
    var longer := calls + [c];
    forall id | id in after.challenges
      ensures exists i :: 0 <= i < |longer| && MadeBy(after, longer[i], id)
    {
      if id in db.challenges {
        var i :| 0 <= i < |calls| && MadeBy(db, calls[i], id);
        assert MadeBy(after, longer[i], id);
      } else {
        assert MadeBy(after, longer[|calls|], id);
      }
    }
    forall i | 0 <= i < |longer| && IssueTaken(longer[i])
      ensures MadeBy(after, longer[i], longer[i].op.challengeId)
    {
      assert i < |calls| ==> IssueTaken(calls[i]) && MadeBy(db, calls[i], calls[i].op.challengeId);
    }
  }

  lemma StaySpent(db: Db, c: Call, after: Db)
    requires SpentAreUsed(db) && RequestsKept(db, after)
    requires if IssueTaken(c) then AddsChallenge(db, after, c) else after.challenges.Keys == db.challenges.Keys
    ensures SpentAreUsed(after)
  {
    forall id | id in after.challenges && after.challenges[id].consumedAt.Some?
      ensures exists k :: 0 <= k < |after.transfers| && after.transfers[k].challengeId == id
    {
      if id in db.challenges && db.challenges[id].consumedAt.Some? {
        var k :| 0 <= k < |db.transfers| && db.transfers[k].challengeId == id;
        assert SameRequest(db.transfers[k], after.transfers[k]);
      }
    }
  }

  lemma CallIsTraced(calls: seq<Call>, db: Db, clock: Time, step: Step)
    requires Traced(calls, db) && Inv(db, clock)
    ensures Traced(calls + [CallOn(db, step)], Apply(db, step.op, step.now).db)
  {
    var c, after := CallOn(db, step), Apply(db, step.op, step.now).db;
    match step.op {
      case Issue(_, _, _, _) => IssueKeepsRequests(db, step);
      case Stage(_, _, _, _, _, _) =>
        StageKeepsRequests(db, step.op, step.now);
        if c.reply.Accepted? { NewRowIsTraced(calls, db, clock, step); }
      case _ => OthersKeepRequests(db, step.op, step.now);
    }
    RowsStayTraced(calls, db, c, after);
    ChallengesStayTraced(calls, db, c, after);
    StaySpent(db, c, after);
  }

  lemma {:induction false} RunIsTraced(calls: seq<Call>, db: Db, clock: Time, steps: seq<Step>)
    requires Traced(calls, db) && Inv(db, clock) && InOrder(calls, clock) && TimelyRun(steps, clock)
    ensures Traced(calls + Journal(db, steps), Run(db, steps))
    ensures InOrder(calls + Journal(db, steps), EndClock(steps, clock))
    decreases |steps|
  {
    if steps == [] {
      assert calls + [] == calls;
    } else {
      var after, longer := Apply(db, steps[0].op, steps[0].now).db, calls + [CallOn(db, steps[0])];
      CallIsTraced(calls, db, clock, steps[0]);
      StepKeeps(db, clock, steps[0]);
      RunIsTraced(longer, after, steps[0].now, steps[1..]);
      assert longer + Journal(after, steps[1..]) == calls + Journal(db, steps);
    }
  }

  lemma EveryRunIsTraced(users: map<UserId, User>, steps: seq<Step>, clock: Time)
    requires TimelyRun(steps, clock)
    ensures Traced(Journal(Empty(users), steps), Run(Empty(users), steps))
    ensures InOrder(Journal(Empty(users), steps), EndClock(steps, clock))
  {
    RunIsTraced([], Empty(users), clock, steps);
    assert [] + Journal(Empty(users), steps) == Journal(Empty(users), steps);
  }

  // ---- main results ------------------------------------------------------------

  /** Call j and no other accounts for the row. */
  ghost predicate OnlyStaging(calls: seq<Call>, j: nat, t: Transfer)
    requires j < |calls|
  {
    StagedBy(calls, j, t) && forall i :: 0 <= i < |calls| && StagedBy(calls, i, t) ==> i == j
  }

  ghost predicate HasOneStaging(calls: seq<Call>, t: Transfer) {
    exists j :: 0 <= j < |calls| && OnlyStaging(calls, j, t)
  }

  lemma OneStaging(calls: seq<Call>, clock: Time, j: nat, t: Transfer)
    requires InOrder(calls, clock) && j < |calls| && StagedBy(calls, j, t)
    ensures OnlyStaging(calls, j, t)
  {
    forall i | 0 <= i < |calls| && StagedBy(calls, i, t)
      ensures i == j
    {
      assert calls[i].now == calls[j].now;
    }
  }

  /**
   No transfer without its proof: every row of every run comes from exactly one
   call, whose proof was valid and answered a challenge that an earlier call had
   issued less than two minutes before; and every accepted request has its row.
   */
  lemma EveryTransferWasProven(users: map<UserId, User>, steps: seq<Step>, clock: Time)
    requires TimelyRun(steps, clock)
    ensures var calls, db := Journal(Empty(users), steps), Run(Empty(users), steps);
            && (forall k :: 0 <= k < |db.transfers| ==> HasOneStaging(calls, db.transfers[k]))
            && forall j :: 0 <= j < |calls| && StageTaken(calls[j]) ==> HasRow(calls, j, db.transfers)
  {
    EveryRunIsTraced(users, steps, clock);
    var calls, db := Journal(Empty(users), steps), Run(Empty(users), steps);
    forall k | 0 <= k < |db.transfers|
      ensures HasOneStaging(calls, db.transfers[k])
    {
      assert HasStaging(calls, db.transfers[k]);
      var j :| 0 <= j < |calls| && StagedBy(calls, j, db.transfers[k]);
      OneStaging(calls, EndClock(steps, clock), j, db.transfers[k]);
    }
  }

  lemma StagingsDiffer(calls: seq<Call>, db: Db, clock: Time, i: nat, j: nat)
    requires InOrder(calls, clock) && Inv(db, clock) && i < |calls| && j < |calls|
    requires HasRow(calls, i, db.transfers) && HasRow(calls, j, db.transfers)
    requires calls[i].op.challengeId == calls[j].op.challengeId
    ensures i == j
  {
    var k :| 0 <= k < |db.transfers| && StagedBy(calls, i, db.transfers[k]);
    var m :| 0 <= m < |db.transfers| && StagedBy(calls, j, db.transfers[m]);
    if k < m {
      StagedRowsAreDistinct(db, clock, k, m);
    } else if m < k {
      StagedRowsAreDistinct(db, clock, m, k);
    } else {
      OneStaging(calls, clock, i, db.transfers[k]);
    }
  }

  /** A challenge backs one request at most. */
  lemma ChallengeIsUsedOnce(users: map<UserId, User>, steps: seq<Step>, clock: Time, i: nat, j: nat)
    requires TimelyRun(steps, clock)
    requires var calls := Journal(Empty(users), steps);
             && i < |calls| && j < |calls| && StageTaken(calls[i]) && StageTaken(calls[j])
             && calls[i].op.challengeId == calls[j].op.challengeId
    ensures i == j
  {
    EveryRunIsTraced(users, steps, clock);
    EveryRunIsSafe(users, steps, clock);
    StagingsDiffer(Journal(Empty(users), steps), Run(Empty(users), steps), EndClock(steps, clock), i, j);
  }

  /** The rows let the request through: no transfer pending, a new generation, a recipient who is not the owner. */
  predicate MayStage(db: Db, request: Op)
    requires request.Stage?
  {
    && db.device.Some? && db.device.value.uid == request.uid
    && (forall k :: 0 <= k < |db.transfers| ==>
          && db.transfers[k].state != Pending
          && db.transfers[k].generation < request.generation
          && db.transfers[k].challengeId != request.challengeId)
    && request.generation > 0
    && !IsOwner(db.members, request.next)
    && request.next in db.users && db.users[request.next].isActive && db.users[request.next].emailVerified
  }

  /** After any run a request is accepted exactly when it is proven by the calls and let through by the rows. */
  lemma RequestIsAcceptedIff(users: map<UserId, User>, steps: seq<Step>, clock: Time, request: Op, now: Time)
    requires TimelyRun(steps, clock) && request.Stage?
    ensures Staged(Run(Empty(users), steps), request, now).reply.Accepted?
       <==> Proven(Journal(Empty(users), steps), request, now) && MayStage(Run(Empty(users), steps), request)
  {
    var db := Run(Empty(users), steps);
    EveryRunIsTraced(users, steps, clock);
    EveryRunIsSafe(users, steps, clock);
    FitIffAnswered(Journal(Empty(users), steps), db, request, now);
    StagedIff(db, EndClock(steps, clock), request, now);
  }

  lemma StagedIff(db: Db, clock: Time, request: Op, now: Time)
    requires Inv(db, clock) && SpentAreUsed(db) && request.Stage?
    ensures Staged(db, request, now).reply.Accepted?
       <==> request.tagValid && Fits(db, request, now) && MayStage(db, request)
  {
    if Staged(db, request, now).reply.Accepted? {
      AcceptedFits(db, clock, request, now);
      assert !HasPending(db.transfers);
    }
    if request.tagValid && Fits(db, request, now) && MayStage(db, request) {
      assert !HasPending(db.transfers);
      assert db.challenges[request.challengeId].consumedAt.None?;
    }
  }
}
