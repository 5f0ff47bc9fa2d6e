/**
 Runs of the transfer protocol that reach its edges, each step accepted by the
 rows the steps before it leave: a receipt of any age behind a switch, a reading
 that no route shows any more, and a stamp taken too long before its lock.
 */
module TransferRuns {
  import opened Basics
  import opened TransferModel
  import opened TransferSafety
  import opened TransferArchive
  import opened TransferCalls

  const ACCOUNTS: map<UserId, User> := map[1 := User(true, true), 2 := User(true, true)]

  /** Every step is accepted by the rows it finds. */
  ghost predicate AllAccepted(db: Db, steps: seq<Step>)
    decreases |steps|
  {
    steps != [] ==>
      var first := Apply(db, steps[0].op, steps[0].now);
      first.reply.Accepted? && AllAccepted(first.db, steps[1..])
  }

  lemma {:induction false} Append(db: Db, steps: seq<Step>, step: Step)
    ensures Run(db, steps + [step]) == Apply(Run(db, steps), step.op, step.now).db
    ensures AllAccepted(db, steps + [step]) ==
            (AllAccepted(db, steps) && Apply(Run(db, steps), step.op, step.now).reply.Accepted?)
    decreases |steps|
  {
    if steps == [] {
      assert [step][1..] == [];
    } else {
      assert (steps + [step])[1..] == steps[1..] + [step];
      Append(Apply(db, steps[0].op, steps[0].now).db, steps[1..], step);
    }
  }

  lemma {:induction false} AppendTimely(steps: seq<Step>, step: Step, clock: Time)
    requires TimelyRun(steps, clock) && Timely(step, EndClock(steps, clock))
    ensures TimelyRun(steps + [step], clock) && EndClock(steps + [step], clock) == step.now
    decreases |steps|
  {
    if steps == [] {
      assert [step][1..] == [];
    } else {
      assert (steps + [step])[1..] == steps[1..] + [step];
      AppendTimely(steps[1..], step, steps[0].now);
    }
  }

  // ---- the rows along the runs -------------------------------------------------

  function Claimed(): Db {
    Db(Some(Device("uid", Some("mqtt"), None, true, 10 * SECOND)), ACCOUNTS, map[1 := Owner], DEFAULT_CHANNELS,
       None, [], map[], map[], [], [])
  }

  const CLAIM := Step(Claim(1, "uid", "mqtt", false), 10 * SECOND)

  lemma ClaimRun()
    ensures Run(Empty(ACCOUNTS), [CLAIM]) == Claimed() && AllAccepted(Empty(ACCOUNTS), [CLAIM]) && TimelyRun([CLAIM], 0)
  {
    assert DEFAULT_CHANNELS + map[] == DEFAULT_CHANNELS;
    assert [CLAIM][1..] == [];
    assert Apply(Empty(ACCOUNTS), CLAIM.op, CLAIM.now) == Outcome(Claimed(), Accepted);
  }

  /** Dated before the device was created, stored after. */
  const EARLY := Reading("power_1", 5 * SECOND, 1, None, 11 * SECOND)
  const STORE := Step(Store("power_1", 5 * SECOND), 11 * SECOND)
  const ISSUE := Step(Issue("uid", None, "c1", "d1"), 12 * SECOND)
  const STAGE := Step(Stage("uid", 2, 1, "c1", "d1", true), 13 * SECOND)
  const STARTED: Time := 73 * SECOND
  const TICKET := Ticket(0, "uid", "mqtt", "ref-1", STARTED)

  function CommitAfter(age: Time): Step { Step(Commit(TICKET, true), STARTED + age) }

  function Stored1(): Db { Claimed().(readings := [EARLY]) }

  function Issued1(): Db {
    Stored1().(challenges := map["c1" := Challenge(None, "d1", 12 * SECOND, 12 * SECOND + CHALLENGE_LIFETIME, None)])
  }

  function Staged1(): Db {
    Stored1().(challenges := map["c1" := Challenge(None, "d1", 12 * SECOND,
        12 * SECOND + CHALLENGE_LIFETIME, Some(13 * SECOND))],
               transfers := [Transfer(0, 1, 2, "c1", 1, Pending, 13 * SECOND, 13 * SECOND + TRANSFER_DELAY, None)],
               notices := [Notice(0, 1, PendingPhase, 13 * SECOND)])
  }

  lemma FirstOwner()
    ensures OwnerOf(map[1 := Owner]) == Some(1)
  {
    assert IsOwner(map[1 := Owner], 1);
  }

  lemma StoreStep()
    ensures Apply(Claimed(), STORE.op, STORE.now) == Outcome(Stored1(), Accepted)
  {
    FirstOwner();
  }

  lemma IssueStep()
    ensures Apply(Stored1(), ISSUE.op, ISSUE.now) == Outcome(Issued1(), Accepted)
  {
  }

  lemma StageStep()
    ensures Apply(Issued1(), STAGE.op, STAGE.now) == Outcome(Staged1(), Accepted)
  {
    FirstOwner();
  }

  lemma CommitStep(age: Time)
    ensures Apply(Staged1(), CommitAfter(age).op, CommitAfter(age).now).reply.Accepted?
    ensures var after := Apply(Staged1(), CommitAfter(age).op, CommitAfter(age).now).db;
            && after.readings == [EARLY] && after.device.Some? && after.device.value.createdAt == 10 * SECOND
            && |after.transfers| == 1 && after.transfers[0].state == Completed
            && after.transfers[0].requestedAt == 13 * SECOND
  {
    FirstOwner();
    assert TransferModel.WellFormedReference("ref-1");
    assert "ref-1"[0] !in " \t\r\n";
  }

  /** The worker attests a minute after the request and commits as much later as it likes. */
  function SlowCommit(age: Time): seq<Step> { [CLAIM] + [STORE] + [ISSUE] + [STAGE] + [CommitAfter(age)] }

  lemma SlowCommitRun(age: Time)
    requires 0 <= age
    ensures TimelyRun(SlowCommit(age), 0) && AllAccepted(Empty(ACCOUNTS), SlowCommit(age))
    ensures Run(Empty(ACCOUNTS), [CLAIM] + [STORE] + [ISSUE] + [STAGE]) == Staged1()
    ensures TimelyRun([CLAIM] + [STORE] + [ISSUE] + [STAGE], 0)
    ensures EndClock([CLAIM] + [STORE] + [ISSUE] + [STAGE], 0) == 13 * SECOND
    ensures Run(Empty(ACCOUNTS), SlowCommit(age)) == Apply(Staged1(), CommitAfter(age).op, CommitAfter(age).now).db
  {
    var db := Empty(ACCOUNTS);
    ClaimRun();
    StoreStep();
    Append(db, [CLAIM], STORE);
    AppendTimely([CLAIM], STORE, 0);
    IssueStep();
    Append(db, [CLAIM] + [STORE], ISSUE);
    AppendTimely([CLAIM] + [STORE], ISSUE, 0);
    StageStep();
    Append(db, [CLAIM] + [STORE] + [ISSUE], STAGE);
    AppendTimely([CLAIM] + [STORE] + [ISSUE], STAGE, 0);
    CommitStep(age);
    Append(db, [CLAIM] + [STORE] + [ISSUE] + [STAGE], CommitAfter(age));
    AppendTimely([CLAIM] + [STORE] + [ISSUE] + [STAGE], CommitAfter(age), 0);
  }

  // ---- the age of a receipt ----------------------------------------------------

  /** No age is too old: for each there is a run whose last step switches the owner on a receipt of that age. */
  lemma ReceiptOfAnyAgeIsAccepted(age: Time)
    requires 0 <= age
    ensures TimelyRun(SlowCommit(age), 0) && AllAccepted(Empty(ACCOUNTS), SlowCommit(age))
    ensures var before := Run(Empty(ACCOUNTS), SlowCommit(age)[..4]);
            var after, now := Run(Empty(ACCOUNTS), SlowCommit(age)), SlowCommit(age)[4].now;
            SwitchesOwner(before, after) && 0 in after.receipts && Age(after, 0, now) == age
  {
    SlowCommitRun(age);
    assert SlowCommit(age)[..4] == [CLAIM] + [STORE] + [ISSUE] + [STAGE];
    RunKeeps(Empty(ACCOUNTS), 0, SlowCommit(age)[..4]);
    CommitStep(age);
    ReceiptIsFreshIff(Staged1(), 13 * SECOND, TICKET, true, STARTED + age);
    assert Apply(Staged1(), CommitAfter(age).op, CommitAfter(age).now).db.receipts[0].verifiedAt == STARTED;
  }

  // ---- a reading before its device ---------------------------------------------

  lemma ShownBefore(before: Db, clock: Time)
    requires Inv(before, clock) && EARLY in before.readings
    requires |before.transfers| == 1 && before.transfers[0].state == Pending
    requires before.transfers[0].requestedAt == 13 * SECOND
    ensures exists from, to :: CurrentRouteServes(before, EARLY.owner, EARLY, from, to)
  {
    CurrentRouteIsExact(before, clock, EARLY.owner, EARLY);
  }

  lemma HiddenAfter(after: Db, clock: Time, user: UserId)
    requires Inv(after, clock) && EARLY in after.readings && after.device.Some?
    requires after.device.value.createdAt == 10 * SECOND
    requires |after.transfers| == 1 && after.transfers[0].state == Completed
    ensures !(exists from, to :: CurrentRouteServes(after, user, EARLY, from, to))
    ensures !(exists from, to :: ArchiveRouteServes(after, user, EARLY, from, to))
  {
    ExactlyOneRoute(after, clock, user, EARLY);
  }

  /** Stored for its owner and shown to him, then shown to nobody once the device changed hands. */
  lemma EarlyReadingIsOrphaned(user: UserId)
    ensures TimelyRun(SlowCommit(0), 0) && AllAccepted(Empty(ACCOUNTS), SlowCommit(0))
    ensures var before := Run(Empty(ACCOUNTS), SlowCommit(0)[..4]);
            EARLY in before.readings && exists from, to :: CurrentRouteServes(before, EARLY.owner, EARLY, from, to)
    ensures var after := Run(Empty(ACCOUNTS), SlowCommit(0));
            && EARLY in after.readings
            && !(exists from, to :: CurrentRouteServes(after, user, EARLY, from, to))
            && !(exists from, to :: ArchiveRouteServes(after, user, EARLY, from, to))
  {
    SlowCommitRun(0);
    CommitStep(0);
    assert SlowCommit(0)[..4] == [CLAIM] + [STORE] + [ISSUE] + [STAGE];
    var before, after := Staged1(), Run(Empty(ACCOUNTS), SlowCommit(0));
    assert before.readings[0] == EARLY && after.readings[0] == EARLY;
    RunKeeps(Empty(ACCOUNTS), 0, SlowCommit(0)[..4]);
    RunKeeps(Empty(ACCOUNTS), 0, SlowCommit(0));
    ShownBefore(before, 13 * SECOND);
    HiddenAfter(after, EndClock(SlowCommit(0), 0), user);
  }

  // ---- a stamp older than its lock ---------------------------------------------

  /** Calls as they commit: each stamped when it began, no later than it commits, one commit after another. */
  ghost predicate CommitInOrder(steps: seq<Step>, commits: seq<Time>) {
    && |commits| == |steps|
    && (forall i :: 0 <= i < |steps| ==> steps[i].now <= commits[i])
    && (forall i :: 0 <= i < |steps| && steps[i].op.Commit? ==> steps[i].op.ticket.startedAt == steps[i].now)
    && forall i, j :: 0 <= i < j < |steps| ==> commits[i] < commits[j]
  }

  const ISSUE_C1 := Step(Issue("uid", None, "c1", "d1"), 20 * SECOND)
  const ISSUE_C2 := Step(Issue("uid", None, "c2", "d2"), 140 * SECOND)
  /** Stamped just before the first challenge expired, committed after the second was issued. */
  const STAGE_1 := Step(Stage("uid", 2, 1, "c1", "d1", true), 139 * SECOND)
  const SWITCH_1 := Step(Commit(Ticket(0, "uid", "mqtt", "ref-1", 200 * SECOND), true), 200 * SECOND)
  /** Stamped while the first transfer was pending, committed after it took effect. */
  const STAGE_2 := Step(Stage("uid", 1, 2, "c2", "d2", true), 200 * SECOND)
  const SWITCH_2 := Step(Commit(Ticket(1, "uid", "mqtt", "ref-2", 261 * SECOND), true), 261 * SECOND)

  function StaleRun(): seq<Step> { UntilFirstRow() + [SWITCH_1] + [STAGE_2] + [SWITCH_2] }

  const STALE_COMMITS: seq<Time> :=
    [10 * SECOND, 20 * SECOND, 140 * SECOND, 141 * SECOND, 201 * SECOND, 202 * SECOND, 262 * SECOND]

  const C1 := Challenge(None, "d1", 20 * SECOND, 140 * SECOND, None)
  const C2 := Challenge(None, "d2", 140 * SECOND, 260 * SECOND, None)
  const ROW_1 := Transfer(0, 1, 2, "c1", 1, Pending, 139 * SECOND, 199 * SECOND, None)
  const ROW_2 := Transfer(1, 2, 1, "c2", 2, Pending, 200 * SECOND, 260 * SECOND, None)

  function WithC1(): Db { Claimed().(challenges := map["c1" := C1]) }

  function WithC2(): Db { Claimed().(challenges := map["c1" := C1, "c2" := C2]) }

  function WithRow1(): Db {
    Claimed().(challenges := map["c1" := C1.(consumedAt := Some(139 * SECOND)), "c2" := C2],
               transfers := [ROW_1], notices := [Notice(0, 1, PendingPhase, 139 * SECOND)])
  }

  lemma ChallengeSteps()
    ensures Apply(Claimed(), ISSUE_C1.op, ISSUE_C1.now) == Outcome(WithC1(), Accepted)
    ensures Apply(WithC1(), ISSUE_C2.op, ISSUE_C2.now) == Outcome(WithC2(), Accepted)
    ensures Apply(WithC2(), STAGE_1.op, STAGE_1.now) == Outcome(WithRow1(), Accepted)
  {
    FirstOwner();
  }

  lemma FirstSwitch()
    ensures var done := Apply(WithRow1(), SWITCH_1.op, SWITCH_1.now);
            && done.reply.Accepted?
            && done.db.transfers == [ROW_1.(state := Completed, effectiveAt := Some(200 * SECOND))]
            && done.db.challenges == WithRow1().challenges
            && done.db.members == map[2 := Owner] && done.db.users == ACCOUNTS
            && done.db.device == Some(Claimed().device.value.(name := None)) && done.db.receipts.Keys == {0}
            && done.db.receipts[0].reference == "ref-1"
  {
    FirstOwner();
    assert "ref-1"[0] !in " \t\r\n";
  }

  lemma SecondStage(db: Db)
    requires db.transfers == [ROW_1.(state := Completed, effectiveAt := Some(200 * SECOND))]
    requires db.challenges == WithRow1().challenges && db.members == map[2 := Owner] && db.users == ACCOUNTS
    requires db.device == Some(Claimed().device.value.(name := None))
    ensures var done := Apply(db, STAGE_2.op, STAGE_2.now);
            && done.reply.Accepted? && done.db.transfers == db.transfers + [ROW_2]
            && done.db.members == db.members && done.db.users == db.users
            && done.db.device == db.device && done.db.receipts == db.receipts
  {
    assert IsOwner(db.members, 2);
  }

  lemma SecondSwitch(db: Db)
    requires db.transfers == [ROW_1.(state := Completed, effectiveAt := Some(200 * SECOND)), ROW_2]
    requires db.members == map[2 := Owner] && db.users == ACCOUNTS
    requires db.device == Some(Claimed().device.value.(name := None))
    requires db.receipts.Keys == {0} && db.receipts[0].reference == "ref-1"
    ensures var done := Apply(db, SWITCH_2.op, SWITCH_2.now);
            && done.reply.Accepted? && done.db.device.Some? && done.db.device.value.createdAt == 10 * SECOND
            && done.db.transfers == [ROW_1.(state := Completed, effectiveAt := Some(200 * SECOND)),
                                     ROW_2.(state := Completed, effectiveAt := Some(261 * SECOND))]
  {
    assert IsOwner(db.members, 2);
    assert "ref-2"[0] !in " \t\r\n";
    assert "ref-2" != "ref-1" by { assert "ref-2"[4] != "ref-1"[4]; }
  }

  lemma StaleRowsAreInconsistent(db: Db)
    requires db.device.Some? && db.device.value.createdAt == 10 * SECOND
    requires db.transfers == [ROW_1.(state := Completed, effectiveAt := Some(200 * SECOND)),
                              ROW_2.(state := Completed, effectiveAt := Some(261 * SECOND))]
    ensures OwnershipEpochs(db.device, db.transfers) == Err(ArchiveInconsistent)
  {
    var rows := db.transfers;
    assert rows[..1] == [rows[0]] && rows[..1][..0] == [];
    assert CompletedInOrder([]) == [];
    assert CompletedInOrder(rows[..1]) == [rows[0]];
    assert InsertSooner(rows[1], []) == [rows[1]] && [rows[0]][1..] == [];
    assert CompletedInOrder(rows) == rows;
    assert !RowConsistent(10 * SECOND, rows, 1);
  }

  function UntilFirstRow(): seq<Step> { [CLAIM] + [ISSUE_C1] + [ISSUE_C2] + [STAGE_1] }

  lemma FirstRowRun()
    ensures AllAccepted(Empty(ACCOUNTS), UntilFirstRow()) && Run(Empty(ACCOUNTS), UntilFirstRow()) == WithRow1()
  {
    var db := Empty(ACCOUNTS);
    ClaimRun();
    ChallengeSteps();
    Append(db, [CLAIM], ISSUE_C1);
    Append(db, [CLAIM] + [ISSUE_C1], ISSUE_C2);
    Append(db, [CLAIM] + [ISSUE_C1] + [ISSUE_C2], STAGE_1);
  }

  lemma StaleRunIsCommitted()
    ensures CommitInOrder(StaleRun(), STALE_COMMITS)
  {
  }

  /** Both challenges, both requests and both switches are accepted; the archive then answers "inconsistent". */
  lemma StaleStampRun()
    ensures CommitInOrder(StaleRun(), STALE_COMMITS) && AllAccepted(Empty(ACCOUNTS), StaleRun())
    ensures var db := Run(Empty(ACCOUNTS), StaleRun());
            OwnershipEpochs(db.device, db.transfers) == Err(ArchiveInconsistent)
  {
    var db, first := Empty(ACCOUNTS), UntilFirstRow();
    StaleRunIsCommitted();
    FirstRowRun();
    FirstSwitch();
    Append(db, first, SWITCH_1);
    var switched := Run(db, first + [SWITCH_1]);
    SecondStage(switched);
    Append(db, first + [SWITCH_1], STAGE_2);
    var staged := Run(db, first + [SWITCH_1] + [STAGE_2]);
    SecondSwitch(staged);
    Append(db, first + [SWITCH_1] + [STAGE_2], SWITCH_2);
    StaleRowsAreInconsistent(Run(db, first + [SWITCH_1] + [STAGE_2] + [SWITCH_2]));
  }
}
